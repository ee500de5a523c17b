/**
 * The player handlers (src/controllers/player.controller.js): answering a
 * question and scoring it, the question queries, the leaderboard, and the
 * follow graph. Reads are functions of the collections; the handlers that
 * write are methods on the store, specified by the functions here.
 */
module PlayerController {
  import opened Outcomes
  import opened Models
  import opened Collections
  import opened Store

  /** The `.limit(10)` of the queries and the leaderboard. */
  const PageSize: nat := 10

  /** `calculatePoints`: 10 points per level of difficulty. */
  function CalculatePoints(difficulty: int): (points: int)
    ensures 1 <= difficulty <= 5 ==> points in {10, 20, 30, 40, 50}
    ensures difficulty > 0 ==> points > 0
  {
    10 * difficulty
  }

  /** The JSON body `submitAnswer` sends on success. */
  datatype SubmitReply = SubmitReply(correct: bool, pointsEarned: int, feedback: string)

  /**
   * Grading one answer: it is correct exactly when it is the number stored
   * as `correctAnswer` (strict equality: `answer` is `None` when the body's
   * `answer` is missing or not a number); a correct answer earns
   * `calculatePoints(difficulty)`, a wrong one nothing.
   */
  function Grade(q: Question, answer: Option<int>): (reply: SubmitReply)
    ensures reply.correct <==> answer == Some(q.correctAnswer)
    ensures reply.pointsEarned == if reply.correct then 10 * q.difficulty else 0
    ensures 1 <= q.difficulty <= 5 ==> reply.pointsEarned in {0, 10, 20, 30, 40, 50}
    ensures reply.feedback == if reply.correct then "Correct answer!" else "Wrong answer."
  {
    var isCorrect := answer == Some(q.correctAnswer);
    var points := if isCorrect then CalculatePoints(q.difficulty) else 0;
    SubmitReply(isCorrect, points, if isCorrect then "Correct answer!" else "Wrong answer.")
  }

  /** The question ids of a user's `answeredQuestions`, in order. */
  function AnsweredIds(u: User): (ids: seq<Id>)
    ensures |ids| == |u.answeredQuestions|
    ensures forall i :: 0 <= i < |ids| ==> ids[i] == u.answeredQuestions[i].question
  {
    seq(|u.answeredQuestions|, i requires 0 <= i < |u.answeredQuestions| => u.answeredQuestions[i].question)
  }

  /** The `{ "answeredQuestions.question": id }` match. */
  predicate HasAnswered(u: User, qid: Id)
  {
    qid in AnsweredIds(u)
  }

  /** No question appears twice in a user's history. */
  predicate NoDuplicateAnswers(u: User)
  {
    NoDuplicates(AnsweredIds(u))
  }

  /** Appending an entry appends its question id. */
  lemma AnsweredIdsAppend(u: User, e: AnsweredEntry)
    ensures AnsweredIds(u.(answeredQuestions := u.answeredQuestions + [e])) == AnsweredIds(u) + [e.question]
  {
  }

  /**
   * `submitAnswer` by `caller` on question `qid`, applied to the users
   * collection: an unknown question is a 404 and an already answered one a
   * 400, both leaving every user unchanged; otherwise the caller's points
   * grow by the points earned and one entry is appended to the end of the
   * caller's history. A caller with no document gets the reply but no write
   * (an update of a missing id changes nothing).
   */
  function SubmitOutcome(users: map<Id, User>, questions: map<Id, Question>, caller: Id, qid: Id,
                         answer: Option<int>, now: Timestamp): (out: (Result<SubmitReply>, map<Id, User>))
    ensures qid !in questions ==> out == (Err(NotFound("Question not found")), users)
    ensures qid in questions && caller in users && HasAnswered(users[caller], qid)
            ==> out == (Err(BadRequest("Question already answered")), users)
    ensures out.0.Ok? <==> qid in questions && !(caller in users && HasAnswered(users[caller], qid))
    ensures out.0.Ok? ==> out.0.value == Grade(questions[qid], answer)
    ensures out.0.Err? ==> out.1 == users
    ensures out.1.Keys == users.Keys
    ensures forall id :: id in users && id != caller ==> out.1[id] == users[id]
    ensures out.0.Ok? && caller in users ==>
      var u := users[caller];
      out.1[caller] == u.(points := u.points + out.0.value.pointsEarned,
                          answeredQuestions := u.answeredQuestions + [AnsweredEntry(qid, out.0.value.correct, now)])
    ensures caller in users && qid in questions ==> HasAnswered(out.1[caller], qid)
    ensures caller in users && NoDuplicateAnswers(users[caller]) ==> NoDuplicateAnswers(out.1[caller])
  {
    if qid !in questions then (Err(NotFound("Question not found")), users)
    else if caller in users && HasAnswered(users[caller], qid) then (Err(BadRequest("Question already answered")), users)
    else
      var reply := Grade(questions[qid], answer);
      if caller in users then
        var u := users[caller];
        var entry := AnsweredEntry(qid, reply.correct, now);
        var u' := u.(points := u.points + reply.pointsEarned, answeredQuestions := u.answeredQuestions + [entry]);
        AnsweredIdsAppend(u, entry);
        assert AnsweredIds(u')[|AnsweredIds(u)|] == qid;
        (Ok(reply), users[caller := u'])
      else (Ok(reply), users)
  }

  /** `submitAnswer`, step by step against the store. */
  method SubmitAnswer(db: Database, caller: Id, qid: Id, answer: Option<int>, now: Timestamp)
    returns (r: Result<SubmitReply>)
    requires db.Valid()
    modifies db
    ensures db.Valid()
    ensures (r, db.users) == SubmitOutcome(old(db.users), old(db.questions), caller, qid, answer, now)
    ensures db.questions == old(db.questions) && db.categories == old(db.categories) && db.nextId == old(db.nextId)
  {
    if qid !in db.questions {
      return Err(NotFound("Question not found"));
    }
    var question := db.questions[qid];
    if caller in db.users && HasAnswered(db.users[caller], qid) {
      return Err(BadRequest("Question already answered"));
    }
    var isCorrect := answer == Some(question.correctAnswer);
    var points := if isCorrect then CalculatePoints(question.difficulty) else 0;
    if caller in db.users {
      var u := db.users[caller];
      db.users := db.users[caller := u.(points := u.points + points,
                                        answeredQuestions := u.answeredQuestions + [AnsweredEntry(qid, isCorrect, now)])];
    }
    r := Ok(SubmitReply(isCorrect, points, if isCorrect then "Correct answer!" else "Wrong answer."));
  }

  /** A second submission of the same question is refused and leaves the points where the first one put them. */
  lemma {:induction false} SubmitTwice(users: map<Id, User>, questions: map<Id, Question>, caller: Id, qid: Id,
                                       answer1: Option<int>, now1: Timestamp, answer2: Option<int>, now2: Timestamp)
    requires caller in users
    requires SubmitOutcome(users, questions, caller, qid, answer1, now1).0.Ok?
    ensures var (r1, users1) := SubmitOutcome(users, questions, caller, qid, answer1, now1);
      var (r2, users2) := SubmitOutcome(users1, questions, caller, qid, answer2, now2);
      r2 == Err(BadRequest("Question already answered")) && users2 == users1
      && users2[caller].points == users[caller].points + r1.value.pointsEarned
  {
    var (r1, users1) := SubmitOutcome(users, questions, caller, qid, answer1, now1);
    assert HasAnswered(users1[caller], qid);
  }

  /**
   * The points a history has earned: `calculatePoints` of each question
   * answered correctly (a question no longer stored counts for nothing).
   */
  function EarnedPoints(history: seq<AnsweredEntry>, questions: map<Id, Question>): int
    decreases |history|
  {
    if history == [] then 0
    else
      var last := history[|history| - 1];
      EarnedPoints(history[..|history| - 1], questions)
        + (if last.wasCorrect && last.question in questions then CalculatePoints(questions[last.question].difficulty) else 0)
  }

  /** A user's points are exactly what the recorded answers earned. */
  ghost predicate ScoreMatchesHistory(u: User, questions: map<Id, Question>)
  {
    u.points == EarnedPoints(u.answeredQuestions, questions)
  }

  /** The bookkeeping invariant of every user: no question twice, and points that match the history. */
  ghost predicate Bookkeeping(users: map<Id, User>, questions: map<Id, Question>)
  {
    forall id :: id in users ==> NoDuplicateAnswers(users[id]) && ScoreMatchesHistory(users[id], questions)
  }

  /** Appending an entry adds what that entry earned. */
  lemma {:induction false} EarnedAppend(history: seq<AnsweredEntry>, e: AnsweredEntry, questions: map<Id, Question>)
    ensures EarnedPoints(history + [e], questions)
            == EarnedPoints(history, questions) + (if e.wasCorrect && e.question in questions then CalculatePoints(questions[e.question].difficulty) else 0)
  {
    assert (history + [e])[..|history|] == history;
  }

  /** One submission keeps the bookkeeping invariant. */
  lemma {:induction false} SubmitKeepsBookkeeping(users: map<Id, User>, questions: map<Id, Question>, caller: Id, qid: Id,
                                                  answer: Option<int>, now: Timestamp)
    requires Bookkeeping(users, questions)
    ensures Bookkeeping(SubmitOutcome(users, questions, caller, qid, answer, now).1, questions)
  {
    var (r, users') := SubmitOutcome(users, questions, caller, qid, answer, now);
    forall id | id in users'
      ensures NoDuplicateAnswers(users'[id]) && ScoreMatchesHistory(users'[id], questions)
    {
      if r.Ok? && id == caller {
        var h := users[caller].answeredQuestions;
        EarnedAppend(h, AnsweredEntry(qid, r.value.correct, now), questions);
      }
    }
  }

  /** One request of a sequence of answer submissions. */
  datatype Submission = Submission(player: Id, question: Id, answer: Option<int>, at: Timestamp)

  /** The users collection after a sequence of submissions, one after the other. */
  function SubmitRun(users: map<Id, User>, questions: map<Id, Question>, run: seq<Submission>): map<Id, User>
    decreases |run|
  {
    if run == [] then users
    else
      var s := run[0];
      SubmitRun(SubmitOutcome(users, questions, s.player, s.question, s.answer, s.at).1, questions, run[1..])
  }

  /**
   * However many answers are submitted, by whichever players, no history
   * ever holds a question twice and every player's points stay equal to
   * what the history earned.
   */
  lemma {:induction false} RunKeepsBookkeeping(users: map<Id, User>, questions: map<Id, Question>, run: seq<Submission>)
    requires Bookkeeping(users, questions)
    ensures Bookkeeping(SubmitRun(users, questions, run), questions)
    decreases |run|
  {
    if run != [] {
      var s := run[0];
      SubmitKeepsBookkeeping(users, questions, s.player, s.question, s.answer, s.at);
      RunKeepsBookkeeping(SubmitOutcome(users, questions, s.player, s.question, s.answer, s.at).1, questions, run[1..]);
    }
  }

  // ---------------------------------------------------------------- queries

  /**
   * The `difficulty` query parameter after `parseInt`: absent (or empty), an
   * integer, or `NaN`, which the store refuses to cast to the Number path.
   */
  datatype DifficultyFilter = AnyDifficulty | Level(level: int) | NotANumber

  /** A question's difficulty is at the filter's level, when the filter sets one. */
  predicate AtLevel(level: Option<int>, difficulty: int)
  {
    level.Some? ==> difficulty == level.value
  }

  /** `Category.findOne({ name })`: the first category in natural order with that name, whoever created it. */
  function CategoryNamed(categories: map<Id, Category>, bound: nat, name: string): (r: Option<Id>)
    ensures r.Some? ==> r.value < bound && r.value in categories && categories[r.value].name == name
    ensures r.None? ==> forall id :: id in categories && id < bound ==> categories[id].name != name
    ensures r.Some? ==> forall id :: id < r.value && id in categories ==> categories[id].name != name
  {
    var ids := Select(categories, (id: nat, c: Category) => c.name == name, 0, bound);
    if ids == [] then None else Some(ids[0])
  }

  /** The query filter: not answered (`$nin`), in the category if one is given, at the difficulty if one is given. */
  predicate Eligible(answered: seq<Id>, category: Option<Id>, level: Option<int>, id: Id, q: Question)
  {
    id !in answered && (category.Some? ==> q.category == category) && AtLevel(level, q.difficulty)
  }

  /**
   * The ids `Question.find(filter).limit(10)` returns: eligible questions
   * in natural order, at most ten, and all of them when fewer than ten match.
   */
  function Page(questions: map<Id, Question>, bound: nat, answered: seq<Id>, category: Option<Id>,
                level: Option<int>): (ids: seq<Id>)
    ensures |ids| <= PageSize && Increasing(ids)
    ensures forall i :: 0 <= i < |ids| ==>
      (ids[i] < bound && ids[i] in questions && Eligible(answered, category, level, ids[i], questions[ids[i]]))
    ensures |ids| < PageSize ==>
      forall id :: id < bound && id in questions && Eligible(answered, category, level, id, questions[id]) ==> id in ids
    ensures forall id :: id < bound && id in questions && Eligible(answered, category, level, id, questions[id]) && id !in ids ==>
      |ids| == PageSize && forall i :: 0 <= i < |ids| ==> ids[i] < id
  {
    var all := Select(questions, (id: nat, q: Question) => Eligible(answered, category, level, id, q), 0, bound);
    var ids := Limit(all, PageSize);
    assert forall i :: 0 <= i < |ids| ==> ids[i] == all[i];
    FirstOfSelection(all, ids);
    ids
  }

  /** A prefix of an increasing sequence holds every element it leaves out below none of its own. */
  lemma {:induction false} FirstOfSelection(all: seq<nat>, ids: seq<nat>)
    requires Increasing(all) && ids <= all && (|ids| < PageSize ==> ids == all) && |ids| <= PageSize
    ensures forall id :: id in all && id !in ids ==> |ids| == PageSize && forall i :: 0 <= i < |ids| ==> ids[i] < id
  {
    forall id | id in all && id !in ids
      ensures |ids| == PageSize && forall i :: 0 <= i < |ids| ==> ids[i] < id
    {
      var j :| 0 <= j < |all| && all[j] == id;
      assert j >= |ids|;
      forall i | 0 <= i < |ids|
        ensures ids[i] < id
      {
        assert ids[i] == all[i];
      }
    }
  }

  /** `Math.min` on counts. */
  function Min(a: nat, b: nat): nat
  {
    if a < b then a else b
  }

  /** The message of the cast error the store raises for a `NaN` difficulty filter. */
  const NaNCast := "Cast to Number failed for value \"NaN\" (type number) at path \"difficulty\" for model \"Question\""

  /** The level a parsed `difficulty` parameter filters on, if any. */
  function LevelOf(difficulty: DifficultyFilter): Option<int>
  {
    if difficulty.Level? then Some(difficulty.level) else None
  }

  /**
   * The player's `getQuestions` (`category` is the query string, "" when
   * absent): at most ten questions the caller has not answered, each
   * matching the given filters, none carrying its answer; an unknown
   * category name is a 404 and a `NaN` difficulty a 500 (the query's cast
   * error), in that order.
   */
  function PlayerQuestions(users: map<Id, User>, questions: map<Id, Question>, categories: map<Id, Category>,
                           bound: nat, caller: Id, category: string, difficulty: DifficultyFilter)
    : (r: Result<seq<QuestionView>>)
    ensures caller !in users ==> r.Err? && Status(r.failure) == 500
    ensures caller in users && category != "" && CategoryNamed(categories, bound, category).None?
            ==> r == Err(NotFound("Category not found"))
    ensures caller in users && (category == "" || CategoryNamed(categories, bound, category).Some?) && difficulty.NotANumber?
            ==> r == Err(ServerError(NaNCast))
    ensures r.Ok? <==> caller in users && (category == "" || CategoryNamed(categories, bound, category).Some?)
                       && !difficulty.NotANumber?
    ensures r.Ok? ==> |r.value| <= PageSize
    ensures r.Ok? ==> forall i :: 0 <= i < |r.value| ==>
      var v := r.value[i];
      v.id in questions && v == HideAnswer(v.id, questions[v.id])
      && !HasAnswered(users[caller], v.id)
      && (difficulty.Level? ==> v.difficulty == difficulty.level)
      && (category != "" ==> v.category.Some? && v.category.value in categories && categories[v.category.value].name == category)
    ensures r.Ok? ==> r.value == Views(questions, Page(questions, bound, AnsweredIds(users[caller]),
                                                       if category == "" then None else CategoryNamed(categories, bound, category),
                                                       LevelOf(difficulty)))
  {
    if caller !in users then Err(ServerError(NullUser("answeredQuestions")))
    else
      var answered := AnsweredIds(users[caller]);
      if category != "" && CategoryNamed(categories, bound, category).None? then Err(NotFound("Category not found"))
      else if difficulty.NotANumber? then Err(ServerError(NaNCast))
      else
        var categoryId := if category == "" then None else CategoryNamed(categories, bound, category);
        Ok(Views(questions, Page(questions, bound, answered, categoryId, LevelOf(difficulty))))
  }

  /**
   * `getRandomQuestion`: a 404 when every question below `bound` has been
   * answered; otherwise a reordering (driven by the random draws `picks`)
   * of the first ten unanswered questions, without their answers.
   */
  function RandomQuestions(users: map<Id, User>, questions: map<Id, Question>, bound: nat, caller: Id,
                           picks: seq<nat>): (r: Result<seq<QuestionView>>)
    ensures caller !in users ==> r.Err? && Status(r.failure) == 500
    ensures caller in users ==>
      (r == Err(NotFound("No more questions available"))
       <==> forall id :: id < bound && id in questions ==> HasAnswered(users[caller], id))
    ensures r.Ok? <==> caller in users && exists id :: id < bound && id in questions && !HasAnswered(users[caller], id)
    ensures r.Ok? ==> 1 <= |r.value| <= PageSize
    ensures r.Ok? ==> forall i :: 0 <= i < |r.value| ==>
      var v := r.value[i];
      v.id in questions && v == HideAnswer(v.id, questions[v.id]) && !HasAnswered(users[caller], v.id)
    ensures r.Ok? ==> multiset(r.value)
                      == multiset(Views(questions, Page(questions, bound, AnsweredIds(users[caller]), None, None)))
  {
    if caller !in users then Err(ServerError(NullUser("answeredQuestions")))
    else
      var ids := Page(questions, bound, AnsweredIds(users[caller]), None, None);
      EmptyPageMeansAllAnswered(questions, bound, users[caller]);
      if ids == [] then Err(NotFound("No more questions available"))
      else
        var candidates := Views(questions, ids);
        var shuffled := Shuffle(candidates, picks);
        ShuffledViews(questions, users[caller], ids, candidates, shuffled);
        assert Limit(shuffled, Min(PageSize, |shuffled|)) == shuffled;
        Ok(Limit(shuffled, Min(PageSize, |shuffled|)))
  }

  /** The unfiltered query comes back empty exactly when `u` has answered every question below `bound`. */
  lemma EmptyPageMeansAllAnswered(questions: map<Id, Question>, bound: nat, u: User)
    ensures Page(questions, bound, AnsweredIds(u), None, None) == []
            <==> forall id :: id < bound && id in questions ==> HasAnswered(u, id)
  {
    var answered := AnsweredIds(u);
    var ids := Page(questions, bound, answered, None, None);
    if ids == [] {
      forall id | id < bound && id in questions ensures HasAnswered(u, id) {
        assert !Eligible(answered, None, None, id, questions[id]);
      }
    } else {
      assert !HasAnswered(u, ids[0]);
    }
  }

  /** A reordering of the unanswered questions of the query: at most ten, each unanswered and without its answer. */
  lemma ShuffledViews(questions: map<Id, Question>, u: User, ids: seq<Id>, candidates: seq<QuestionView>,
                      shuffled: seq<QuestionView>)
    requires forall i :: 0 <= i < |ids| ==> ids[i] in questions && !HasAnswered(u, ids[i])
    requires |ids| <= PageSize
    requires candidates == Views(questions, ids) && multiset(shuffled) == multiset(candidates)
    ensures |shuffled| == |ids|
    ensures forall i :: 0 <= i < |shuffled| ==>
      var v := shuffled[i];
      v.id in questions && v == HideAnswer(v.id, questions[v.id]) && !HasAnswered(u, v.id)
  {
    assert |shuffled| == |multiset(shuffled)| == |candidates|;
    forall i | 0 <= i < |shuffled|
      ensures shuffled[i].id in questions && shuffled[i] == HideAnswer(shuffled[i].id, questions[shuffled[i].id])
              && !HasAnswered(u, shuffled[i].id)
    {
      assert shuffled[i] in multiset(candidates);
      var j :| 0 <= j < |candidates| && candidates[j] == shuffled[i];
      assert candidates[j].id == ids[j];
    }
  }

  /** The random handler returns the same questions as the unfiltered query, in some order. */
  lemma RandomIsReorderedQuery(users: map<Id, User>, questions: map<Id, Question>, categories: map<Id, Category>,
                               bound: nat, caller: Id, picks: seq<nat>)
    requires RandomQuestions(users, questions, bound, caller, picks).Ok?
    ensures PlayerQuestions(users, questions, categories, bound, caller, "", AnyDifficulty).Ok?
    ensures multiset(RandomQuestions(users, questions, bound, caller, picks).value)
            == multiset(PlayerQuestions(users, questions, categories, bound, caller, "", AnyDifficulty).value)
  {
  }

  // ------------------------------------------------------------ leaderboard

  /** A leaderboard row: `.select("username points")` keeps the id, the username and the points. */
  datatype Standing = Standing(id: Id, username: string, points: int)

  function StandingOf(id: Id, u: User): Standing
  {
    Standing(id, u.username, u.points)
  }

  /** Points never increase along the list. */
  predicate Ranked(s: seq<Standing>)
  {
    forall i, j :: 0 <= i < j < |s| ==> s[i].points >= s[j].points
  }

  /** Ids strictly increase along the list, so no document appears twice. */
  predicate IdsIncreasing(s: seq<Standing>)
  {
    forall i, j :: 0 <= i < j < |s| ==> s[i].id < s[j].id
  }

  /** `User.find({ role: "player" })`: the players below `bound` in natural order. */
  function PlayerStandings(users: map<Id, User>, bound: nat): (s: seq<Standing>)
    ensures forall i :: 0 <= i < |s| ==> s[i].id in users && users[s[i].id].role == Player
                                         && s[i] == StandingOf(s[i].id, users[s[i].id])
    ensures forall id :: id < bound && id in users && users[id].role == Player ==> StandingOf(id, users[id]) in s
    ensures IdsIncreasing(s)
  {
    var ids := Select(users, (id: nat, u: User) => u.role == Player, 0, bound);
    var s := seq(|ids|, i requires 0 <= i < |ids| => StandingOf(ids[i], users[ids[i]]));
    assert IdsIncreasing(s) by {
      forall i, j | 0 <= i < j < |s| ensures s[i].id < s[j].id {
        assert s[i].id == ids[i] && s[j].id == ids[j];
      }
    }
    assert forall id :: id < bound && id in users && users[id].role == Player ==> StandingOf(id, users[id]) in s by {
      forall id | id < bound && id in users && users[id].role == Player ensures StandingOf(id, users[id]) in s {
        var i :| 0 <= i < |ids| && ids[i] == id;
        assert s[i] == StandingOf(id, users[id]);
      }
    }
    s
  }

  /** Puts `x` in front of the first row with no more points than it has. */
  function InsertRanked(x: Standing, s: seq<Standing>): (r: seq<Standing>)
    requires Ranked(s)
    ensures Ranked(r)
    ensures multiset(r) == multiset(s) + multiset{x}
    ensures |r| == |s| + 1 && (r[0] == x || (s != [] && r[0] == s[0]))
  {
    if s == [] then [x]
    else if s[0].points <= x.points then
      RankedCons(x, s);
      [x] + s
    else
      var rest := InsertRanked(x, s[1..]);
      assert s == [s[0]] + s[1..];
      RankedCons(s[0], rest);
      [s[0]] + rest
  }

  /** A row with at least the points of the head of a ranking can go in front of it. */
  lemma RankedCons(h: Standing, s: seq<Standing>)
    requires Ranked(s) && (s != [] ==> h.points >= s[0].points)
    ensures Ranked([h] + s)
  {
    forall i, j | 0 <= i < j < |[h] + s| ensures ([h] + s)[i].points >= ([h] + s)[j].points {
      if i == 0 && j > 1 {
        assert s[0].points >= s[j - 1].points;
      }
    }
  }

  /** `.sort("-points")`, as a stable insertion sort (the store leaves the order of ties open). */
  function SortByPoints(s: seq<Standing>): (r: seq<Standing>)
    ensures Ranked(r)
    ensures multiset(r) == multiset(s)
  {
    if s == [] then []
    else
      assert s == [s[0]] + s[1..];
      InsertRanked(s[0], SortByPoints(s[1..]))
  }

  /**
   * `getLeaderboard`: at most ten players, by points from high to low; a
   * player left out has no more points than anyone listed, and nobody is
   * left out when fewer than ten are listed.
   */
  function Leaderboard(users: map<Id, User>, bound: nat): (r: seq<Standing>)
    ensures |r| <= PageSize
    ensures Ranked(r)
    ensures forall i :: 0 <= i < |r| ==> r[i].id in users && users[r[i].id].role == Player
                                         && r[i] == StandingOf(r[i].id, users[r[i].id])
    ensures forall id :: id < bound && id in users && users[id].role == Player && StandingOf(id, users[id]) !in r ==>
      |r| == PageSize && forall i :: 0 <= i < |r| ==> users[id].points <= r[i].points
    ensures multiset(r) <= multiset(PlayerStandings(users, bound))
    ensures forall i, j :: 0 <= i < j < |r| ==> r[i].id != r[j].id
  {
    var sorted := SortByPoints(PlayerStandings(users, bound));
    var r := Limit(sorted, PageSize);
    TopPlayers(users, bound, sorted, r);
    PrefixOfReordering(PlayerStandings(users, bound), sorted, r);
    r
  }

  /** The first ten of a ranking of the players are players, still ranked, and nobody left out outranks them. */
  lemma TopPlayers(users: map<Id, User>, bound: nat, sorted: seq<Standing>, r: seq<Standing>)
    requires Ranked(sorted) && multiset(sorted) == multiset(PlayerStandings(users, bound))
    requires r == Limit(sorted, PageSize)
    ensures Ranked(r)
    ensures forall i :: 0 <= i < |r| ==> r[i].id in users && users[r[i].id].role == Player
                                         && r[i] == StandingOf(r[i].id, users[r[i].id])
    ensures forall id :: id < bound && id in users && users[id].role == Player && StandingOf(id, users[id]) !in r ==>
      |r| == PageSize && forall i :: 0 <= i < |r| ==> users[id].points <= r[i].points
  {
    var all := PlayerStandings(users, bound);
    TopOfRanking(all, sorted, r);
    forall i, j | 0 <= i < j < |r| ensures r[i].points >= r[j].points {
      assert r[i] == sorted[i] && r[j] == sorted[j];
    }
    forall id | id < bound && id in users && users[id].role == Player && StandingOf(id, users[id]) !in r
      ensures |r| == PageSize && forall i :: 0 <= i < |r| ==> users[id].points <= r[i].points
    {
      assert StandingOf(id, users[id]) in all;
    }
  }

  /** The first rows of a reordering of a list with distinct ids are rows of it, each at most once. */
  lemma PrefixOfReordering(all: seq<Standing>, sorted: seq<Standing>, r: seq<Standing>)
    requires IdsIncreasing(all) && multiset(sorted) == multiset(all) && r == Limit(sorted, PageSize)
    ensures multiset(r) <= multiset(all)
    ensures forall i, j :: 0 <= i < j < |r| ==> r[i].id != r[j].id
  {
    assert sorted == r + sorted[|r|..];
    DistinctIds(all, r);
  }

  /** A sequence with strictly increasing ids holds each row at most once. */
  lemma {:induction false} CountAtMostOne(s: seq<Standing>, x: Standing)
    requires IdsIncreasing(s)
    ensures multiset(s)[x] <= 1
    decreases |s|
  {
    if s != [] {
      assert s == [s[0]] + s[1..];
      CountAtMostOne(s[1..], x);
      if s[0] == x {
        assert forall k :: 0 <= k < |s[1..]| ==> s[1..][k].id > x.id;
      }
    }
  }

  /** Rows drawn without repetition from a list with distinct ids have distinct ids. */
  lemma DistinctIds(all: seq<Standing>, r: seq<Standing>)
    requires IdsIncreasing(all) && multiset(r) <= multiset(all)
    ensures forall i, j :: 0 <= i < j < |r| ==> r[i].id != r[j].id
  {
    forall i, j | 0 <= i < j < |r| ensures r[i].id != r[j].id {
      assert r[i] in multiset(all) && r[j] in multiset(all);
      var k :| 0 <= k < |all| && all[k] == r[i];
      var l :| 0 <= l < |all| && all[l] == r[j];
      assert r == r[..j] + [r[j]] + r[j + 1..];
      assert r[..j][i] == r[i];
      assert multiset(r)[r[j]] >= multiset(r[..j])[r[j]] + 1;
      CountAtMostOne(all, r[i]);
    }
  }

  /** The first rows of a ranking of `all`: each comes from `all`, and any row of `all` left out ranks no higher. */
  lemma TopOfRanking(all: seq<Standing>, sorted: seq<Standing>, r: seq<Standing>)
    requires Ranked(sorted) && multiset(sorted) == multiset(all) && r == Limit(sorted, PageSize)
    ensures forall i :: 0 <= i < |r| ==> r[i] in all
    ensures forall row :: row in all && row !in r ==> |r| == PageSize && forall i :: 0 <= i < |r| ==> row.points <= r[i].points
  {
    forall row | row in all && row !in r
      ensures |r| == PageSize && forall i :: 0 <= i < |r| ==> row.points <= r[i].points
    {
      assert row in multiset(sorted);
      var j :| 0 <= j < |sorted| && sorted[j] == row;
      assert j >= |r|;
      forall i | 0 <= i < |r| ensures row.points <= r[i].points {
        assert r[i] == sorted[i];
      }
    }
    forall i | 0 <= i < |r| ensures r[i] in all {
      assert r[i] == sorted[i];
      assert sorted[i] in multiset(all);
    }
  }

  // ----------------------------------------------------------- follow graph

  /** The word the follow handlers use for a role in their messages. */
  function RoleLabel(role: Role): string
  {
    match role
    case Designer => "Designer"
    case Player => "Player"
  }

  /** Nothing but `following` and `followers` differs between two user records. */
  predicate SameButLinks(u: User, v: User)
  {
    v == u.(following := v.following, followers := v.followers)
  }

  /**
   * The two `$addToSet` writes of a follow: the target into the caller's
   * `following` (no write when the caller has no document), then the caller
   * into the target's `followers`.
   */
  function AddFollow(users: map<Id, User>, caller: Id, target: Id): (users': map<Id, User>)
    requires target in users
    ensures users'.Keys == users.Keys
    ensures forall id :: id in users ==> SameButLinks(users[id], users'[id])
    ensures forall id :: id in users ==>
      users'[id].following == if id == caller then AddToSet(users[id].following, target) else users[id].following
    ensures forall id :: id in users ==>
      users'[id].followers == if id == target then AddToSet(users[id].followers, caller) else users[id].followers
    ensures UniqueUsernames(users) ==> UniqueUsernames(users')
  {
    var first := if caller in users then users[caller := users[caller].(following := AddToSet(users[caller].following, target))]
                 else users;
    first[target := first[target].(followers := AddToSet(first[target].followers, caller))]
  }

  /**
   * `followDesigner` (kind `Designer`) and `followPlayer` (kind `Player`):
   * a missing target, or one of the other role, is a 404 with no change;
   * otherwise `$addToSet` puts the target in the caller's `following`, then
   * `$addToSet` puts the caller in the target's `followers`. Following
   * oneself is not refused.
   */
  function FollowOutcome(users: map<Id, User>, caller: Id, target: Id, kind: Role): (out: (Result<string>, map<Id, User>))
    ensures target !in users || users[target].role != kind ==> out == (Err(NotFound(RoleLabel(kind) + " not found")), users)
    ensures out.0.Ok? <==> target in users && users[target].role == kind
    ensures out.1.Keys == users.Keys
    ensures forall id :: id in users ==> SameButLinks(users[id], out.1[id])
    ensures forall id :: id in users ==>
      out.1[id].following == if out.0.Ok? && id == caller then AddToSet(users[id].following, target) else users[id].following
    ensures forall id :: id in users ==>
      out.1[id].followers == if out.0.Ok? && id == target then AddToSet(users[id].followers, caller) else users[id].followers
    ensures out.0.Ok? ==> caller in out.1[target].followers && (caller in users ==> target in out.1[caller].following)
  {
    if target !in users || users[target].role != kind then (Err(NotFound(RoleLabel(kind) + " not found")), users)
    else (Ok(RoleLabel(kind) + " followed successfully"), AddFollow(users, caller, target))
  }

  /** The two `$pull` writes of an unfollow, in the same order as the follow's. */
  function RemoveFollow(users: map<Id, User>, caller: Id, target: Id): (users': map<Id, User>)
    requires target in users
    ensures users'.Keys == users.Keys
    ensures forall id :: id in users ==> SameButLinks(users[id], users'[id])
    ensures forall id :: id in users ==>
      users'[id].following == if id == caller then Pull(users[id].following, target) else users[id].following
    ensures forall id :: id in users ==>
      users'[id].followers == if id == target then Pull(users[id].followers, caller) else users[id].followers
    ensures UniqueUsernames(users) ==> UniqueUsernames(users')
  {
    var first := if caller in users then users[caller := users[caller].(following := Pull(users[caller].following, target))]
                 else users;
    first[target := first[target].(followers := Pull(first[target].followers, caller))]
  }

  /**
   * `unfollowDesigner` and `unfollowPlayer`: the same target check, then
   * `$pull` takes the target out of the caller's `following` and the caller
   * out of the target's `followers`.
   */
  function UnfollowOutcome(users: map<Id, User>, caller: Id, target: Id, kind: Role): (out: (Result<string>, map<Id, User>))
    ensures target !in users || users[target].role != kind ==> out == (Err(NotFound(RoleLabel(kind) + " not found")), users)
    ensures out.0.Ok? <==> target in users && users[target].role == kind
    ensures out.1.Keys == users.Keys
    ensures forall id :: id in users ==> SameButLinks(users[id], out.1[id])
    ensures forall id :: id in users ==>
      out.1[id].following == if out.0.Ok? && id == caller then Pull(users[id].following, target) else users[id].following
    ensures forall id :: id in users ==>
      out.1[id].followers == if out.0.Ok? && id == target then Pull(users[id].followers, caller) else users[id].followers
    ensures out.0.Ok? ==> caller !in out.1[target].followers && (caller in users ==> target !in out.1[caller].following)
  {
    if target !in users || users[target].role != kind then (Err(NotFound(RoleLabel(kind) + " not found")), users)
    else (Ok(RoleLabel(kind) + " unfollowed successfully"), RemoveFollow(users, caller, target))
  }

  /** `follow…`, step by step against the store: two updates, one per document. */
  method Follow(db: Database, caller: Id, target: Id, kind: Role) returns (r: Result<string>)
    requires db.Valid()
    modifies db
    ensures db.Valid()
    ensures (r, db.users) == FollowOutcome(old(db.users), caller, target, kind)
    ensures db.questions == old(db.questions) && db.categories == old(db.categories) && db.nextId == old(db.nextId)
  {
    if target !in db.users || db.users[target].role != kind {
      return Err(NotFound(RoleLabel(kind) + " not found"));
    }
    if caller in db.users {
      db.users := db.users[caller := db.users[caller].(following := AddToSet(db.users[caller].following, target))];
    }
    db.users := db.users[target := db.users[target].(followers := AddToSet(db.users[target].followers, caller))];
    assert db.users == AddFollow(old(db.users), caller, target);
    r := Ok(RoleLabel(kind) + " followed successfully");
  }

  /** `unfollow…`, step by step against the store. */
  method Unfollow(db: Database, caller: Id, target: Id, kind: Role) returns (r: Result<string>)
    requires db.Valid()
    modifies db
    ensures db.Valid()
    ensures (r, db.users) == UnfollowOutcome(old(db.users), caller, target, kind)
    ensures db.questions == old(db.questions) && db.categories == old(db.categories) && db.nextId == old(db.nextId)
  {
    if target !in db.users || db.users[target].role != kind {
      return Err(NotFound(RoleLabel(kind) + " not found"));
    }
    if caller in db.users {
      db.users := db.users[caller := db.users[caller].(following := Pull(db.users[caller].following, target))];
    }
    db.users := db.users[target := db.users[target].(followers := Pull(db.users[target].followers, caller))];
    assert db.users == RemoveFollow(old(db.users), caller, target);
    r := Ok(RoleLabel(kind) + " unfollowed successfully");
  }

  /** Following is a set insertion: doing it again changes nothing. */
  lemma {:induction false} FollowIdempotent(users: map<Id, User>, caller: Id, target: Id, kind: Role)
    requires FollowOutcome(users, caller, target, kind).0.Ok?
    ensures var users1 := FollowOutcome(users, caller, target, kind).1;
      FollowOutcome(users1, caller, target, kind) == FollowOutcome(users, caller, target, kind)
  {
    var users1 := AddFollow(users, caller, target);
    assert users1[target].role == kind by {
      assert SameButLinks(users[target], users1[target]);
    }
    var users2 := AddFollow(users1, caller, target);
    forall id | id in users1 ensures users2[id] == users1[id] {
      assert SameButLinks(users1[id], users2[id]);
      assert users2[id].following == users1[id].following by {
        if id == caller {
          assert target in users1[id].following;
        }
      }
      assert users2[id].followers == users1[id].followers by {
        if id == target {
          assert caller in users1[id].followers;
        }
      }
    }
    assert users2 == users1;
  }

  /** A player may follow themself: both lists of their own record then hold their id. */
  lemma SelfFollow(users: map<Id, User>, caller: Id)
    requires caller in users
    ensures var out := FollowOutcome(users, caller, caller, users[caller].role);
      out.0.Ok? && caller in out.1[caller].following && caller in out.1[caller].followers
  {
  }

  /** Following twice and unfollowing once leaves the caller not following the target. */
  lemma FollowTwiceUnfollowOnce(users: map<Id, User>, caller: Id, target: Id, kind: Role)
    requires caller in users && target in users && users[target].role == kind
    ensures var users1 := FollowOutcome(users, caller, target, kind).1;
      var users2 := FollowOutcome(users1, caller, target, kind).1;
      var users3 := UnfollowOutcome(users2, caller, target, kind).1;
      target !in users3[caller].following && caller !in users3[target].followers
  {
  }

  /** Every follow is recorded on both sides: b lists a as a follower exactly when a lists b as followed. */
  ghost predicate LinksMirrored(users: map<Id, User>)
  {
    forall a, b :: a in users && b in users ==> (a in users[b].followers <==> b in users[a].following)
  }

  /** Following keeps the two sides of the graph in step. */
  lemma {:induction false} FollowKeepsLinksMirrored(users: map<Id, User>, caller: Id, target: Id, kind: Role)
    requires LinksMirrored(users)
    ensures LinksMirrored(FollowOutcome(users, caller, target, kind).1)
  {
    var (r, users') := FollowOutcome(users, caller, target, kind);
    forall a, b | a in users' && b in users' ensures a in users'[b].followers <==> b in users'[a].following {
      assert a in users[b].followers <==> b in users[a].following;
    }
  }

  /** Unfollowing keeps the two sides of the graph in step. */
  lemma {:induction false} UnfollowKeepsLinksMirrored(users: map<Id, User>, caller: Id, target: Id, kind: Role)
    requires LinksMirrored(users)
    ensures LinksMirrored(UnfollowOutcome(users, caller, target, kind).1)
  {
    var (r, users') := UnfollowOutcome(users, caller, target, kind);
    forall a, b | a in users' && b in users' ensures a in users'[b].followers <==> b in users'[a].following {
      assert a in users[b].followers <==> b in users[a].following;
    }
  }
}

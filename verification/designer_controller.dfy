/**
 * The designer handlers (src/controllers/designer.controller.js): every
 * read, update and delete of questions and categories is filtered by
 * `creator == caller`, and what is created belongs to the caller.
 */
module DesignerController {
  import opened Outcomes
  import opened Models
  import opened Collections
  import opened Store

  // -------------------------------------------------------------- questions

  /** `getQuestions`: exactly the caller's questions below `bound`, in natural order, without their answers. */
  function OwnedQuestions(questions: map<Id, Question>, bound: nat, caller: Id): (vs: seq<QuestionView>)
    ensures forall i :: 0 <= i < |vs| ==>
      vs[i].id < bound && vs[i].id in questions && vs[i].creator == caller && vs[i] == HideAnswer(vs[i].id, questions[vs[i].id])
    ensures forall id :: id < bound && id in questions && questions[id].creator == caller ==> HideAnswer(id, questions[id]) in vs
    ensures forall i, j :: 0 <= i < j < |vs| ==> vs[i].id < vs[j].id
  {
    var ids := Select(questions, (id: nat, q: Question) => q.creator == caller, 0, bound);
    var vs := Views(questions, ids);
    assert forall id :: id < bound && id in questions && questions[id].creator == caller ==>
      exists i :: 0 <= i < |ids| && ids[i] == id && vs[i] == HideAnswer(id, questions[id]);
    vs
  }

  /** `getQuestion`: the whole question (answer included) if it exists and the caller created it, else 404. */
  function GetQuestion(questions: map<Id, Question>, caller: Id, id: Id): (r: Result<Question>)
    ensures r.Ok? <==> id in questions && questions[id].creator == caller
    ensures r.Ok? ==> r.value == questions[id]
    ensures r.Err? ==> r.failure == NotFound("Question not found")
  {
    if id in questions && questions[id].creator == caller then Ok(questions[id]) else Err(NotFound("Question not found"))
  }

  /** The fields `createQuestion` takes from the request body; absent ones are `None` (options default to none). */
  datatype QuestionBody = QuestionBody(
    text: Option<string>,
    options: seq<string>,
    correctAnswer: Option<int>,
    categoryId: Option<Id>,
    difficulty: Option<int>,
    relatedQuestions: seq<Id>)

  /**
   * The document `createQuestion` saves: built from the body with the
   * caller as creator (whatever the body holds), and kept only if the
   * schema's validators accept it, else a 400.
   */
  function BuildQuestion(body: QuestionBody, caller: Id, now: Timestamp): (r: Result<Question>)
    ensures r.Ok? <==> body.text.Some? && body.text.value != "" && body.correctAnswer.Some? && body.difficulty.Some?
                       && 1 <= body.difficulty.value <= 5 && (forall i :: 0 <= i < |body.options| ==> body.options[i] != "")
    ensures r.Ok? ==> ValidQuestion(r.value) && r.value.creator == caller
    ensures r.Ok? ==> r.value.text == body.text.value && r.value.options == body.options
                      && r.value.correctAnswer == body.correctAnswer.value && r.value.category == body.categoryId
                      && r.value.difficulty == body.difficulty.value && r.value.relatedQuestions == body.relatedQuestions
    ensures r.Err? ==> Status(r.failure) == 400
  {
    if body.text.None? || body.correctAnswer.None? || body.difficulty.None? then Err(BadRequest("Question validation failed"))
    else
      var q := Question(body.text.value, body.options, body.correctAnswer.value, body.categoryId,
                        body.difficulty.value, caller, body.relatedQuestions, now);
      if ValidQuestion(q) then Ok(q) else Err(BadRequest("Question validation failed"))
  }

  /** `createQuestion`: adds exactly one question, under a new id, owned by the caller. */
  method CreateQuestion(db: Database, caller: Id, body: QuestionBody, now: Timestamp) returns (r: Result<(Id, Question)>)
    requires db.Valid()
    modifies db
    ensures db.Valid()
    ensures r.Ok? <==> BuildQuestion(body, caller, now).Ok?
    ensures r.Err? ==> r.failure == BuildQuestion(body, caller, now).failure
                       && db.questions == old(db.questions) && db.nextId == old(db.nextId)
    ensures r.Ok? ==> r.value.0 == old(db.nextId) && r.value.0 !in old(db.questions)
                      && r.value.1 == BuildQuestion(body, caller, now).value && r.value.1.creator == caller
                      && db.questions == old(db.questions)[r.value.0 := r.value.1] && db.nextId == old(db.nextId) + 1
    ensures r.Ok? ==> HideAnswer(r.value.0, r.value.1) in OwnedQuestions(db.questions, db.nextId, caller)
    ensures db.users == old(db.users) && db.categories == old(db.categories)
  {
    var built := BuildQuestion(body, caller, now);
    if built.Err? {
      return Err(built.failure);
    }
    var id := db.nextId;
    db.questions := db.questions[id := built.value];
    db.nextId := db.nextId + 1;
    r := Ok((id, built.value));
    assert id < db.nextId && id in db.questions && db.questions[id].creator == caller;
    assert HideAnswer(id, db.questions[id]) in OwnedQuestions(db.questions, db.nextId, caller);
  }

  /** An update body: each field present is set, as `$set` does (the store runs no validators on updates). */
  datatype QuestionPatch = QuestionPatch(
    text: Option<string>,
    options: Option<seq<string>>,
    correctAnswer: Option<int>,
    category: Option<Option<Id>>,
    difficulty: Option<int>,
    creator: Option<Id>,
    relatedQuestions: Option<seq<Id>>,
    createdAt: Option<Timestamp>)

  /** A question with the fields present in the patch overwritten and every other field as it was. */
  function PatchQuestion(q: Question, p: QuestionPatch): (r: Question)
    ensures p.text.Some? ==> r.text == p.text.value
    ensures p.text.None? ==> r.text == q.text
    ensures p.options.Some? ==> r.options == p.options.value
    ensures p.options.None? ==> r.options == q.options
    ensures p.correctAnswer.Some? ==> r.correctAnswer == p.correctAnswer.value
    ensures p.correctAnswer.None? ==> r.correctAnswer == q.correctAnswer
    ensures p.category.Some? ==> r.category == p.category.value
    ensures p.category.None? ==> r.category == q.category
    ensures p.difficulty.Some? ==> r.difficulty == p.difficulty.value
    ensures p.difficulty.None? ==> r.difficulty == q.difficulty
    ensures p.creator.Some? ==> r.creator == p.creator.value
    ensures p.creator.None? ==> r.creator == q.creator
    ensures p.relatedQuestions.Some? ==> r.relatedQuestions == p.relatedQuestions.value
    ensures p.relatedQuestions.None? ==> r.relatedQuestions == q.relatedQuestions
    ensures p.createdAt.Some? ==> r.createdAt == p.createdAt.value
    ensures p.createdAt.None? ==> r.createdAt == q.createdAt
  {
    Question(Override(p.text, q.text), Override(p.options, q.options), Override(p.correctAnswer, q.correctAnswer),
             Override(p.category, q.category), Override(p.difficulty, q.difficulty), Override(p.creator, q.creator),
             Override(p.relatedQuestions, q.relatedQuestions), Override(p.createdAt, q.createdAt))
  }

  /** `updateQuestion`: patches the question only if the caller owns it; otherwise 404 and no change. */
  method UpdateQuestion(db: Database, caller: Id, id: Id, patch: QuestionPatch) returns (r: Result<Question>)
    requires db.Valid()
    modifies db
    ensures db.Valid()
    ensures r.Ok? <==> id in old(db.questions) && old(db.questions)[id].creator == caller
    ensures r.Ok? ==> r.value == PatchQuestion(old(db.questions)[id], patch) && db.questions == old(db.questions)[id := r.value]
    ensures r.Err? ==> r == Err(NotFound("Question not found")) && db.questions == old(db.questions)
    ensures forall k :: k in old(db.questions) && old(db.questions)[k].creator != caller ==>
      k in db.questions && db.questions[k] == old(db.questions)[k]
    ensures db.users == old(db.users) && db.categories == old(db.categories) && db.nextId == old(db.nextId)
  {
    if id !in db.questions || db.questions[id].creator != caller {
      return Err(NotFound("Question not found"));
    }
    var updated := PatchQuestion(db.questions[id], patch);
    db.questions := db.questions[id := updated];
    r := Ok(updated);
  }

  /** `deleteQuestion`: removes exactly the caller's question with that id; otherwise 404 and no change. */
  method DeleteQuestion(db: Database, caller: Id, id: Id) returns (r: Result<string>)
    requires db.Valid()
    modifies db
    ensures db.Valid()
    ensures r.Ok? <==> id in old(db.questions) && old(db.questions)[id].creator == caller
    ensures r.Ok? ==> r.value == "Question deleted" && db.questions == old(db.questions) - {id}
    ensures r.Err? ==> r == Err(NotFound("Question not found")) && db.questions == old(db.questions)
    ensures forall k :: k in old(db.questions) && old(db.questions)[k].creator != caller ==>
      k in db.questions && db.questions[k] == old(db.questions)[k]
    ensures db.users == old(db.users) && db.categories == old(db.categories) && db.nextId == old(db.nextId)
  {
    if id !in db.questions || db.questions[id].creator != caller {
      return Err(NotFound("Question not found"));
    }
    db.questions := db.questions - {id};
    r := Ok("Question deleted");
  }

  // ------------------------------------------------------------- categories

  /** `getCategories`: exactly the caller's categories below `bound`, in natural order, with their ids. */
  function OwnedCategories(categories: map<Id, Category>, bound: nat, caller: Id): (cs: seq<(Id, Category)>)
    ensures forall i :: 0 <= i < |cs| ==>
      cs[i].0 < bound && cs[i].0 in categories && cs[i].1 == categories[cs[i].0] && cs[i].1.creator == caller
    ensures forall id :: id < bound && id in categories && categories[id].creator == caller ==> (id, categories[id]) in cs
    ensures forall i, j :: 0 <= i < j < |cs| ==> cs[i].0 < cs[j].0
  {
    var ids := Select(categories, (id: nat, c: Category) => c.creator == caller, 0, bound);
    var cs := seq(|ids|, i requires 0 <= i < |ids| => (ids[i], categories[ids[i]]));
    assert forall id :: id < bound && id in categories && categories[id].creator == caller ==>
      exists i :: 0 <= i < |ids| && ids[i] == id && cs[i] == (id, categories[id]);
    cs
  }

  /** `createCategory`: adds one category with the given name, owned by the caller. */
  method CreateCategory(db: Database, caller: Id, name: string) returns (r: Result<(Id, Category)>)
    requires db.Valid()
    modifies db
    ensures db.Valid()
    ensures r.Ok? && r.value.1 == Category(name, caller)
    ensures r.value.0 == old(db.nextId) && r.value.0 !in old(db.categories)
    ensures db.categories == old(db.categories)[r.value.0 := r.value.1] && db.nextId == old(db.nextId) + 1
    ensures (r.value.0, r.value.1) in OwnedCategories(db.categories, db.nextId, caller)
    ensures db.users == old(db.users) && db.questions == old(db.questions)
  {
    var id := db.nextId;
    db.categories := db.categories[id := Category(name, caller)];
    db.nextId := db.nextId + 1;
    r := Ok((id, Category(name, caller)));
    assert id < db.nextId && id in db.categories && db.categories[id].creator == caller;
    assert (id, db.categories[id]) in OwnedCategories(db.categories, db.nextId, caller);
  }

  /** `updateCategory`: renames the category only if the caller owns it; otherwise 404 and no change. */
  method UpdateCategory(db: Database, caller: Id, id: Id, name: string) returns (r: Result<(Id, Category)>)
    requires db.Valid()
    modifies db
    ensures db.Valid()
    ensures r.Ok? <==> id in old(db.categories) && old(db.categories)[id].creator == caller
    ensures r.Ok? ==> r.value == (id, old(db.categories)[id].(name := name))
                      && db.categories == old(db.categories)[id := r.value.1]
    ensures r.Err? ==> r == Err(NotFound("Category not found")) && db.categories == old(db.categories)
    ensures db.users == old(db.users) && db.questions == old(db.questions) && db.nextId == old(db.nextId)
  {
    if id !in db.categories || db.categories[id].creator != caller {
      return Err(NotFound("Category not found"));
    }
    var renamed := db.categories[id].(name := name);
    db.categories := db.categories[id := renamed];
    r := Ok((id, renamed));
  }

  /**
   * `deleteCategory`: removes exactly the caller's category with that id;
   * otherwise 404. Questions that refer to it are left as they are.
   */
  method DeleteCategory(db: Database, caller: Id, id: Id) returns (r: Result<string>)
    requires db.Valid()
    modifies db
    ensures db.Valid()
    ensures r.Ok? <==> id in old(db.categories) && old(db.categories)[id].creator == caller
    ensures r.Ok? ==> r.value == "Category deleted" && db.categories == old(db.categories) - {id}
    ensures r.Err? ==> r == Err(NotFound("Category not found")) && db.categories == old(db.categories)
    ensures db.users == old(db.users) && db.questions == old(db.questions) && db.nextId == old(db.nextId)
  {
    if id !in db.categories || db.categories[id].creator != caller {
      return Err(NotFound("Category not found"));
    }
    db.categories := db.categories - {id};
    r := Ok("Category deleted");
  }
}

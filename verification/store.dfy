/**
 * The document store the handlers share: the users, questions and
 * categories collections, keyed by id, and the counter that hands out
 * fresh ids (ids only grow, so ascending id is insertion order).
 */
module Store {
  import opened Models

  /** No two users share a username (the `unique` index on `username`). */
  ghost predicate UniqueUsernames(users: map<Id, User>)
  {
    forall a, b :: a in users && b in users && users[a].username == users[b].username ==> a == b
  }

  /** Every key of `m` was handed out before `bound`. */
  ghost predicate Below<T>(m: map<Id, T>, bound: nat)
  {
    forall id :: id in m ==> id < bound
  }

  class Database {
    var users: map<Id, User>
    var questions: map<Id, Question>
    var categories: map<Id, Category>
    var nextId: nat

    ghost predicate Valid()
      reads this
    {
      Below(users, nextId) && Below(questions, nextId) && Below(categories, nextId)
      && UniqueUsernames(users)
    }

    constructor ()
      ensures Valid()
      ensures users == map[] && questions == map[] && categories == map[]
    {
      users, questions, categories := map[], map[], map[];
      nextId := 0;
    }
  }
}

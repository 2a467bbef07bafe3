/** The records of the question bank and the outcomes its handlers report. */
module Records {

  /** A stored question. `id` is assigned by the store when the question is inserted. */
  datatype Question = Question(id: int, question: string, answer: string, category: int, difficulty: int)

  /** A category; `kind` is the column named `type` (a display label). */
  datatype Category = Category(id: int, kind: string)

  datatype Option<T> = None | Some(value: T)

  /** The error kinds a handler aborts with: 400, 404, 422 and 500. */
  datatype Error = BadRequest | NotFound | Unprocessable | InternalError

  datatype Result<T> = Ok(value: T) | Err(error: Error)

  /** No two questions share an id (the primary key). */
  predicate UniqueQuestionIds(qs: seq<Question>) {
    forall i, j :: 0 <= i < j < |qs| ==> qs[i].id != qs[j].id
  }

  /** No two categories share an id (the primary key). */
  predicate UniqueCategoryIds(cats: seq<Category>) {
    forall i, j :: 0 <= i < j < |cats| ==> cats[i].id != cats[j].id
  }

  /** The ids of the categories, as a set. */
  function CategoryIds(cats: seq<Category>): set<int> {
    set i | 0 <= i < |cats| :: cats[i].id
  }
}

/** The question table as an in-memory store, and the two handlers that change it:
    `POST /questions` (insert) and `DELETE /questions/<id>`. */
module QuestionStore {
  import opened Records

  /** The JSON body of `POST /questions`; a field absent from the body is `None`. */
  datatype QuestionBody = QuestionBody(
    question: Option<string>,
    answer: Option<string>,
    difficulty: Option<int>,
    category: Option<int>)

  /** Python truthiness of a text field: present and non-empty. */
  predicate TruthyText(f: Option<string>) {
    f.Some? && f.value != ""
  }

  /** Python truthiness of a number field: present and non-zero. */
  predicate TruthyNumber(f: Option<int>) {
    f.Some? && f.value != 0
  }

  /** All four fields are present and truthy, so the handler goes on to insert. */
  predicate IsComplete(body: QuestionBody) {
    TruthyText(body.question) && TruthyText(body.answer) &&
    TruthyNumber(body.difficulty) && TruthyNumber(body.category)
  }

  /** The position of the question with id `id`, or -1 when there is none
      (the `filter(Question.id == id).one_or_none()` lookup). */
  function IndexOfId(qs: seq<Question>, id: int): (k: int)
    ensures -1 <= k < |qs|
    ensures k >= 0 ==> qs[k].id == id && forall j :: 0 <= j < k ==> qs[j].id != id
    ensures k < 0 ==> forall j :: 0 <= j < |qs| ==> qs[j].id != id
  {
    if qs == [] then -1
    else if qs[0].id == id then 0
    else
      var k := IndexOfId(qs[1..], id);
      if k < 0 then -1 else k + 1
  }

  /** `qs` without the element at `k`. */
  function RemoveAt(qs: seq<Question>, k: nat): (r: seq<Question>)
    requires k < |qs|
    ensures |r| == |qs| - 1
    ensures forall j :: 0 <= j < k ==> r[j] == qs[j]
    ensures forall j :: k <= j < |r| ==> r[j] == qs[j + 1]
  {
    qs[..k] + qs[k + 1..]
  }

  /** Removing the question with a unique id removes that id and no other: the rest stay,
      ids stay unique, and a second lookup of the removed id finds nothing. */
  lemma RemoveById(qs: seq<Question>, k: nat)
    requires UniqueQuestionIds(qs) && k < |qs|
    ensures UniqueQuestionIds(RemoveAt(qs, k))
    ensures IndexOfId(RemoveAt(qs, k), qs[k].id) < 0
    ensures forall j :: 0 <= j < |qs| && j != k ==> qs[j] in RemoveAt(qs, k)
    ensures multiset(RemoveAt(qs, k)) == multiset(qs) - multiset{qs[k]}
  {
    var r := RemoveAt(qs, k);
    forall j | 0 <= j < |qs| && j != k ensures qs[j] in r {
      if j < k { assert r[j] == qs[j]; } else { assert r[j - 1] == qs[j]; }
    }
    assert qs == qs[..k] + [qs[k]] + qs[k + 1..];
  }

  /** The question table and the category table. New ids are drawn from a counter; the
      contracts promise only that a new id differs from every stored one. */
  class Store {
    var questions: seq<Question>
    var categories: seq<Category>
    var nextId: int

    /** Ids are unique, positive and below the next id to hand out. */
    ghost predicate Valid()
      reads this
    {
      nextId >= 1 &&
      UniqueQuestionIds(questions) &&
      (forall i :: 0 <= i < |questions| ==> 1 <= questions[i].id < nextId) &&
      UniqueCategoryIds(categories)
    }

    /** An empty question table over a fixed set of categories. */
    constructor (cats: seq<Category>)
      requires UniqueCategoryIds(cats)
      ensures Valid()
      ensures questions == [] && categories == cats
    {
      questions := [];
      categories := cats;
      nextId := 1;
    }

    /** `POST /questions`. A body with a missing or falsy field is a 400 and changes nothing;
        a failed insert (`fails`) is a 422 and changes nothing; otherwise exactly one question
        carrying the body's fields is appended under a fresh id, which is returned (status 201). */
    method AddQuestion(body: QuestionBody, fails: bool) returns (r: Result<int>)
      requires Valid()
      modifies this
      ensures Valid()
      ensures categories == old(categories)
      ensures !IsComplete(body) ==> r == Err(BadRequest)
      ensures IsComplete(body) && fails ==> r == Err(Unprocessable)
      ensures r.Err? ==> unchanged(this)
      ensures IsComplete(body) && !fails ==>
                r.Ok? &&
                (forall i :: 0 <= i < |old(questions)| ==> old(questions)[i].id != r.value) &&
                questions == old(questions) + [Question(r.value, body.question.value, body.answer.value,
                                                        body.category.value, body.difficulty.value)]
    {
      if !IsComplete(body) {
        return Err(BadRequest);
      }
      if fails {
        return Err(Unprocessable);
      }
      var q := Question(nextId, body.question.value, body.answer.value,
                        body.category.value, body.difficulty.value);
      questions := questions + [q];
      nextId := nextId + 1;
      r := Ok(q.id);
    }

    /** `DELETE /questions/<id>`. An unknown id is a 404 and a failed delete (`fails`) a 422,
        both leaving the table unchanged; otherwise exactly that question is removed, the
        others keep their order, and the id is reported back. */
    method DeleteQuestion(id: int, fails: bool) returns (r: Result<int>)
      requires Valid()
      modifies this
      ensures Valid()
      ensures categories == old(categories)
      ensures IndexOfId(old(questions), id) < 0 ==> r == Err(NotFound)
      ensures IndexOfId(old(questions), id) >= 0 && fails ==> r == Err(Unprocessable)
      ensures r.Err? ==> unchanged(this)
      ensures IndexOfId(old(questions), id) >= 0 && !fails ==>
                r == Ok(id) &&
                questions == RemoveAt(old(questions), IndexOfId(old(questions), id)) &&
                IndexOfId(questions, id) < 0
    {
      var k := IndexOfId(questions, id);
      if k < 0 {
        return Err(NotFound);
      }
      if fails {
        return Err(Unprocessable);
      }
      RemoveById(questions, k);
      questions := RemoveAt(questions, k);
      r := Ok(id);
    }
  }

  /** Create a question, delete it, delete it again: the first delete reports the new id,
      the second is a 404. */
  method CreateThenDeleteTwice() returns (created: int, first: Result<int>, second: Result<int>)
    ensures first == Ok(created)
    ensures second == Err(NotFound)
  {
    var store := new Store([Category(1, "Science"), Category(2, "Art")]);
    var added := store.AddQuestion(QuestionBody(Some("Q"), Some("A"), Some(1), Some(1)), false);
    created := added.value;
    first := store.DeleteQuestion(created, false);
    second := store.DeleteQuestion(created, false);
  }
}

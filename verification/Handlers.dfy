/** The read-only request handlers: `GET /categories`, `GET /questions`,
    `GET /categories/<id>/questions` and `POST /questions/search`. Each is a function of
    the store's current contents (the question and category tables, in storage order). */
module Handlers {
  import opened Records
  import opened Sequences
  import opened Pagination
  import opened TextMatch

  /** The `{id: type}` dictionary built from the categories. As in a dictionary
      comprehension, a later category with the same id overrides an earlier one. */
  function CategoryMap(cats: seq<Category>): (m: map<int, string>)
    ensures m.Keys == CategoryIds(cats)
  {
    if cats == [] then map[]
    else
      var init := cats[..|cats| - 1];
      assert CategoryIds(cats) == CategoryIds(init) + {cats[|cats| - 1].id} by {
        assert forall i :: 0 <= i < |init| ==> init[i] == cats[i];
      }
      CategoryMap(init)[cats[|cats| - 1].id := cats[|cats| - 1].kind]
  }

  /** With unique ids, the dictionary maps every category's id to its type. */
  lemma {:induction false} CategoryMapLookup(cats: seq<Category>)
    requires UniqueCategoryIds(cats)
    ensures forall i :: 0 <= i < |cats| ==> CategoryMap(cats)[cats[i].id] == cats[i].kind
  {
    if cats != [] {
      var init := cats[..|cats| - 1];
      assert UniqueCategoryIds(init);
      CategoryMapLookup(init);
    }
  }

  /** The category types in storage order (the `currentCategory` list of `GET /questions`). */
  function CategoryKinds(cats: seq<Category>): (r: seq<string>)
    ensures |r| == |cats|
    ensures forall i :: 0 <= i < |cats| ==> r[i] == cats[i].kind
  {
    seq(|cats|, i requires 0 <= i < |cats| => cats[i].kind)
  }

  /** `GET /categories`: 404 when there are no categories, otherwise the `{id: type}` map. */
  function GetCategories(cats: seq<Category>): (r: Result<map<int, string>>)
    ensures r.Err? <==> |cats| == 0
    ensures r.Err? ==> r.error == NotFound
    ensures r.Ok? ==> r.value.Keys == CategoryIds(cats)
    ensures r.Ok? && UniqueCategoryIds(cats) ==>
              forall i :: 0 <= i < |cats| ==> r.value[cats[i].id] == cats[i].kind
  {
    if |cats| == 0 then Err(NotFound)
    else if UniqueCategoryIds(cats) then
      CategoryMapLookup(cats);
      Ok(CategoryMap(cats))
    else Ok(CategoryMap(cats))
  }

  /** The success body of `GET /questions`. */
  datatype QuestionList = QuestionList(
    questions: seq<Question>,
    totalQuestions: nat,
    categories: map<int, string>,
    currentCategory: seq<string>)

  /** `GET /questions?page=N`: 404 when the requested page is empty; otherwise that page,
      the number of ALL questions, and the categories as a map and as a list of types. */
  function GetQuestions(qs: seq<Question>, cats: seq<Category>, page: int): (r: Result<QuestionList>)
    ensures r.Err? ==> r.error == NotFound
    ensures page >= 1 ==> (r.Err? <==> |qs| <= PageStart(page))
    ensures page == 0 ==> r.Err?
    ensures r.Err? <==> Paginate(qs, page) == []
    ensures r.Ok? ==> r.value.questions == Paginate(qs, page) && r.value.totalQuestions == |qs|
    ensures r.Ok? && page >= 1 ==>
              forall k :: 0 <= k < |r.value.questions| ==> r.value.questions[k] == qs[PageStart(page) + k]
    ensures r.Ok? ==> r.value.categories.Keys == CategoryIds(cats)
    ensures r.Ok? && UniqueCategoryIds(cats) ==>
              forall i :: 0 <= i < |cats| ==> r.value.categories[cats[i].id] == cats[i].kind
    ensures r.Ok? ==> r.value.currentCategory == CategoryKinds(cats)
  {
    var current := Paginate(qs, page);
    if |current| == 0 then Err(NotFound)
    else if UniqueCategoryIds(cats) then
      CategoryMapLookup(cats);
      Ok(QuestionList(current, |qs|, CategoryMap(cats), CategoryKinds(cats)))
    else Ok(QuestionList(current, |qs|, CategoryMap(cats), CategoryKinds(cats)))
  }

  /** `GET /questions` on twelve questions: page 2 holds exactly the 11th and 12th,
      `totalQuestions` is 12, and page 3 is a 404. */
  lemma TwelveQuestions(qs: seq<Question>, cats: seq<Category>)
    requires |qs| == 12
    ensures GetQuestions(qs, cats, 2).Ok?
    ensures GetQuestions(qs, cats, 2).value.questions == qs[10..12]
    ensures GetQuestions(qs, cats, 2).value.totalQuestions == 12
    ensures GetQuestions(qs, cats, 3) == Err(NotFound)
  {
    var page := Paginate(qs, 2);
    assert PageStart(2) == 10 && |page| == 2;
    assert page == qs[10..12] by {
      assert page[0] == qs[10] && page[1] == qs[11];
    }
  }

  /** Membership test used to filter questions by category. */
  function InCategory(categoryId: int): Question -> bool {
    (q: Question) => q.category == categoryId
  }

  /** The questions of one category, in storage order. */
  function ByCategory(qs: seq<Question>, categoryId: int): (r: seq<Question>)
    ensures forall q :: q in r <==> q in qs && q.category == categoryId
  {
    FilterComplete(qs, InCategory(categoryId));
    Filter(qs, InCategory(categoryId))
  }

  /** Membership test used to look a category up by id. */
  function HasCategoryId(categoryId: int): Category -> bool {
    (c: Category) => c.id == categoryId
  }

  /** With unique ids, at most one category carries a given id. */
  lemma {:induction false} AtMostOneCategory(cats: seq<Category>, categoryId: int)
    requires UniqueCategoryIds(cats)
    ensures |Filter(cats, HasCategoryId(categoryId))| <= 1
  {
    if cats != [] {
      var rest := cats[1..];
      assert UniqueCategoryIds(rest);
      if cats[0].id == categoryId {
        FilterNone(rest, HasCategoryId(categoryId));
      } else {
        AtMostOneCategory(rest, categoryId);
      }
    }
  }

  /** The success body of `GET /categories/<id>/questions`. */
  datatype CategoryQuestionList = CategoryQuestionList(
    questions: seq<Question>,
    totalQuestions: nat,
    currentCategory: string)

  /** `GET /categories/<id>/questions?page=N`. The questions of the category are paginated;
      an empty page is a 404. The category itself is then looked up with `one_or_none()`:
      when no category (or more than one) has that id, reading its type fails and the
      request ends with a 500. */
  function GetCategoryQuestions(qs: seq<Question>, cats: seq<Category>, categoryId: int, page: int)
    : (r: Result<CategoryQuestionList>)
    ensures r.Err? ==> r.error == NotFound || r.error == InternalError
    ensures r == Err(NotFound) <==> Paginate(ByCategory(qs, categoryId), page) == []
    ensures page >= 1 ==> (r == Err(NotFound) <==> |ByCategory(qs, categoryId)| <= PageStart(page))
    ensures r.Ok? ==> forall q :: q in r.value.questions ==> q in qs && q.category == categoryId
    ensures r.Ok? ==> r.value.questions == Paginate(ByCategory(qs, categoryId), page)
    ensures r.Ok? ==> r.value.totalQuestions == |ByCategory(qs, categoryId)|
    ensures r.Ok? ==> Category(categoryId, r.value.currentCategory) in cats
    ensures r == Err(InternalError) ==> categoryId !in CategoryIds(cats) || !UniqueCategoryIds(cats)
  {
    var inCategory := ByCategory(qs, categoryId);
    var current := Paginate(inCategory, page);
    if |current| == 0 then Err(NotFound)
    else
      var found := Filter(cats, HasCategoryId(categoryId));
      if |found| != 1 then
        CategoryLookupFails(cats, categoryId);
        Err(InternalError)
      else
        assert found[0] in found;
        Ok(CategoryQuestionList(current, |inCategory|, found[0].kind))
  }

  /** The `one_or_none()` lookup of a category finds nothing (or too much) only when the id
      is unknown or ids are not unique. */
  lemma CategoryLookupFails(cats: seq<Category>, categoryId: int)
    requires |Filter(cats, HasCategoryId(categoryId))| != 1
    ensures categoryId !in CategoryIds(cats) || !UniqueCategoryIds(cats)
  {
    if categoryId in CategoryIds(cats) && UniqueCategoryIds(cats) {
      var i :| 0 <= i < |cats| && cats[i].id == categoryId;
      FilterComplete(cats, HasCategoryId(categoryId));
      assert cats[i] in Filter(cats, HasCategoryId(categoryId));
      AtMostOneCategory(cats, categoryId);
    }
  }

  /** Every question refers to an existing category. */
  predicate CategoriesResolve(qs: seq<Question>, cats: seq<Category>) {
    forall i :: 0 <= i < |qs| ==> qs[i].category in CategoryIds(cats)
  }

  /** On a store whose questions all refer to existing, uniquely numbered categories,
      `GET /categories/<id>/questions` never ends with a 500. */
  lemma NoInternalErrorWhenConsistent(qs: seq<Question>, cats: seq<Category>, categoryId: int, page: int)
    requires CategoriesResolve(qs, cats) && UniqueCategoryIds(cats)
    ensures GetCategoryQuestions(qs, cats, categoryId, page) != Err(InternalError)
  {
    var inCategory := ByCategory(qs, categoryId);
    if Paginate(inCategory, page) != [] {
      var q := Paginate(inCategory, page)[0];
      assert q in inCategory;
      assert q in qs;
      var i :| 0 <= i < |qs| && qs[i] == q;
      assert categoryId in CategoryIds(cats);
    }
  }

  /** Membership test of the search filter. */
  function MatchesTerm(term: string): Question -> bool {
    (q: Question) => ContainsIgnoreCase(q.question, term)
  }

  /** The success body of `POST /questions/search` (its `currentCategory` is always null). */
  datatype SearchResult = SearchResult(questions: seq<Question>, totalQuestions: nat)

  /** `POST /questions/search`: a missing or empty `searchTerm` is a 400; a failure of the
      query (`fails`) is a 422; otherwise every question whose text contains the term,
      ignoring ASCII case, in storage order and unpaginated, with their number. */
  function SearchQuestions(qs: seq<Question>, searchTerm: Option<string>, fails: bool): (r: Result<SearchResult>)
    ensures r == Err(BadRequest) <==> searchTerm == None || searchTerm == Some("")
    ensures r == Err(Unprocessable) <==> searchTerm != None && searchTerm != Some("") && fails
    ensures r.Err? ==> r.error == BadRequest || r.error == Unprocessable
    ensures r.Ok? ==> forall q :: q in r.value.questions <==>
                        q in qs && ContainsIgnoreCase(q.question, searchTerm.value)
    ensures r.Ok? ==> r.value.questions == Filter(qs, MatchesTerm(searchTerm.value))
    ensures r.Ok? ==> r.value.totalQuestions == |r.value.questions|
  {
    match searchTerm
    case None => Err(BadRequest)
    case Some(term) =>
      if term == "" then Err(BadRequest)
      else if fails then Err(Unprocessable)
      else
        var found := Filter(qs, MatchesTerm(term));
        FilterComplete(qs, MatchesTerm(term));
        Ok(SearchResult(found, |found|))
  }
}

# Trivia question bank: a verified model

This project models the question-bank logic of a small trivia web service, found in
`backend/flaskr/__init__.py`. The service keeps two tables, questions and categories. It
serves these requests:

- `GET /categories` returns every category as an `{id: type}` map.
- `GET /questions?page=N` returns one page of ten questions.
- `GET /categories/<id>/questions?page=N` returns one page of a single category's questions.
- `POST /questions/search` returns every question whose text contains a term, ignoring case.
- `POST /questions` creates a question.
- `DELETE /questions/<id>` deletes a question.

The database is modelled as an in-memory `Store` class (module `QuestionStore`). It holds a
`seq<Question>`, a `seq<Category>` and an auto-increment id counter. The two writing handlers
are methods on that class. The four reading handlers are functions of the tables' contents,
in storage order (module `Handlers`). Each handler returns `Ok(body)` or `Err(kind)`. The
error kinds are `BadRequest` (400), `NotFound` (404), `Unprocessable` (422) and
`InternalError` (500).

Modules:

- `Records` holds the records, the error kinds and the result type.
- `Sequences` holds the order-preserving filter that every query uses.
- `Pagination` holds pages of ten, with Python's slicing rules.
- `TextMatch` holds case-insensitive substring matching.
- `Handlers` holds the reading handlers.
- `QuestionStore` holds the store and the writing handlers.

Behaviour worth knowing:

- Pagination is Python's `items[start:end]`, negative indices included. Page 0 is always
  empty, so it is a 404. A negative page counts from the end of the list: page -1 of 25
  questions is questions 5 to 14.
- `GET /categories/<id>/questions` looks its category up with `one_or_none()` and then reads
  `.format()['type']` from the result. If no category has that id, this raises, and the
  request ends with a 500. An unknown id therefore does not always give an empty result: it gives
  a 404 only when the page is empty, and a 500 when some question still carries that id.
- `POST /questions` checks fields by Python truthiness. An empty string is rejected, and so
  is a difficulty or category of 0.

## Model

| member | source | states |
|---|---|---|
| Pagination.Paginate | backend/flaskr/__init__.py:28-35 | a page has at most 10 items, all taken from the input; for page >= 1 it is exactly the items at indices `[(page-1)*10, page*10)` clipped to the length, and it is empty iff its start is at or beyond the length; page 0 is empty; a negative page is `items[lo..hi]` with both bounds counted from the end and clipped at 0, as Python slices |
| Pagination.PagesArePrefix | backend/flaskr/__init__.py:30-34 | pages 1..n concatenated are exactly the first `min(10n, L)` items in order |
| Pagination.PagesPartition | backend/flaskr/__init__.py:30-34 | pages 1..ceil(L/10) concatenated reproduce the list with no gaps or overlaps, none of them is empty, and every later page is empty |
| Sequences.Filter | backend/flaskr/__init__.py:85 | a query result is no longer than the table and holds only rows of the table satisfying the predicate |
| Sequences.FilterComplete | backend/flaskr/__init__.py:85 | a query result drops no row that satisfies the predicate |
| Sequences.FilterConcat | backend/flaskr/__init__.py:144 | a query result keeps storage order: filtering distributes over concatenation |
| Sequences.FilterMultiplicity | backend/flaskr/__init__.py:144 | each row appears in a query result as often as in the table if it satisfies the predicate, and otherwise not at all |
| Sequences.FilterNone | backend/flaskr/__init__.py:90 | a query that no row satisfies returns nothing |
| Handlers.CategoryMap | backend/flaskr/__init__.py:50-51 | the `{id: type}` dictionary has exactly the category ids as keys |
| Handlers.CategoryMapLookup | backend/flaskr/__init__.py:50-51 | with unique ids, the dictionary maps each category's id to its type |
| Handlers.GetCategories | backend/flaskr/__init__.py:46-55 | 404 exactly when there are no categories; otherwise a map with exactly the category ids as keys, each mapped to its type |
| Handlers.GetQuestions | backend/flaskr/__init__.py:65-79 | 404 exactly when the requested page is empty, for every page number (for page >= 1, exactly when its start is at or beyond the number of questions); on success the page of all questions, `totalQuestions` = number of all questions, the category map with exactly the category ids as keys and (for unique ids) each mapped to its type, and the list of types |
| Handlers.TwelveQuestions | backend/flaskr/__init__.py:65-79 | with 12 questions, page 2 is exactly the 11th and 12th with `totalQuestions` 12, and page 3 is a 404 |
| Handlers.ByCategory | backend/flaskr/__init__.py:85 | a question is in the filtered list iff it is in the table and has the requested category |
| Handlers.AtMostOneCategory | backend/flaskr/__init__.py:90 | with unique category ids, the `one_or_none()` lookup matches at most one category |
| Handlers.GetCategoryQuestions | backend/flaskr/__init__.py:85-97 | 404 exactly when the page of the category's questions is empty; every returned question has the requested category; `totalQuestions` is the size of the whole filtered set; `currentCategory` is the type of a stored category with that id; a 500 only when that id is unknown or not unique |
| Handlers.CategoryLookupFails | backend/flaskr/__init__.py:90-96 | the category lookup fails only for an unknown id or duplicated ids |
| Handlers.NoInternalErrorWhenConsistent | backend/flaskr/__init__.py:85-97 | when every question refers to an existing category and category ids are unique, the handler never ends with a 500 |
| Handlers.SearchQuestions | backend/flaskr/__init__.py:139-153 | 400 exactly when the term is missing or empty; 422 exactly on a query failure with a valid term; otherwise exactly the questions whose text contains the term ignoring ASCII case, in storage order, and `totalQuestions` equals the number returned |
| TextMatch.ContainsSound | backend/flaskr/__init__.py:144 | a match reported by the search is a real occurrence at some position |
| TextMatch.ContainsComplete | backend/flaskr/__init__.py:144 | an occurrence at any position, not only at the start, is found (the match is unanchored) |
| TextMatch.ContainsIff | backend/flaskr/__init__.py:144 | substring search succeeds iff an occurrence exists |
| TextMatch.ContainsIgnoreCaseIff | backend/flaskr/__init__.py:144 | the `ILIKE '%term%'` match holds iff some window of the text equals the term character by character up to ASCII case |
| TextMatch.SearchExamples | backend/flaskr/__init__.py:144 | "WORLD" matches "Hello world" and "WORLDLY" but not "word" |
| QuestionStore.IndexOfId | backend/flaskr/__init__.py:160 | the lookup by id returns the first position holding that id, or -1 exactly when no question has it |
| QuestionStore.RemoveById | backend/flaskr/__init__.py:160-170 | removing a question with a unique id keeps ids unique, keeps every other question, removes exactly one copy, and the id is no longer found |
| QuestionStore.Store.AddQuestion | backend/flaskr/__init__.py:105-130 | 400 unless all four fields are present and truthy; 422 on an insert failure; on error the store is unchanged; otherwise exactly one question with the body's fields is appended under a fresh id, which is returned |
| QuestionStore.Store.DeleteQuestion | backend/flaskr/__init__.py:160-172 | 404 for an unknown id and 422 on a delete failure, both leaving the store unchanged; otherwise exactly that question is removed, the others keep their order, `deleted` is the id, and the id can no longer be found |
| QuestionStore.CreateThenDeleteTwice | backend/flaskr/__init__.py:105-170 | creating a question and deleting it reports the created id; deleting it again is a 404 |

## Left out

- Flask app construction, route registration, `jsonify` and the constant `success: True`
  fields are transport framing. The status code of a success, 201 for `POST /questions`,
  is not modelled either.
- CORS setup (line 19) and `after_request` (lines 23-26) are left out. They are header
  plumbing, and `after_request` is never registered.
- Request decoding is not modelled. `page` is taken as an already-decoded integer. The
  `type=int` parse, with its default of 1 for a missing or non-numeric value, is not part
  of this model.
- Request bodies are typed. `question`, `answer` and `searchTerm` are optional strings, and
  `difficulty` and `category` are optional integers. A JSON value of another type, and a
  request without a JSON body (which fails with a 500), are not modelled.
- The SQLAlchemy layer and `models` (`setup_db`, `query`, `insert`, `delete`, `format`) are
  not part of this model. `format()` is the record itself.
- Result order is an assumption. `Question.query.all()` and the `filter(...)` queries (lines
  65, 85, 144) have no `ORDER BY`, so SQL promises no order. The model fixes one order, the
  order of the table sequence, and the filters keep it.
- New ids come from a counter that is the model's own choice. The database's id sequence may
  use up ids on a failed insert, which this counter does not do. The contracts promise only
  that a new id differs from every stored id.
- The `except: abort(422)` paths (lines 129-130, 152-153, 171-172) are persistence failures.
  They appear only as a `fails` flag: the outcome is a 422 and the store is unchanged.
- SQL `ILIKE` is modelled as ASCII case-insensitive substring matching. The term is assumed
  to contain no LIKE wildcards (`%` or `_`). Case folding beyond ASCII is database-dependent
  and is not modelled.
- The quiz selector is not modelled. The file has no `/quizzes` route, and `random` is
  imported but never used.
- The routes' `<int:...>` converters accept only non-negative ids. The model accepts any
  integer id, which covers those.
- Concurrency between requests is not modelled. Each handler runs alone against the store.

# Trivia API core in Dafny

This project models the request-handling core of a small trivia game API. The
API lists categories, lists questions page by page, searches questions, creates
and deletes questions, and picks the next quiz question. The web framework and
the object-relational mapper are removed. In their place:

- The two tables (`questions`, `categories`) are sequences of rows kept in
  identifier order. That is the order every `order_by(...id)` query returns.
- A handler's outcome is a `Response`. It is either `Ok(status, body)` with
  status 200 or 201, or `Err(error)` with one of 400, 404, 422 or 500.
- Handlers that only read the store are functions of the two tables
  (`Handlers`).
- The two handlers that change the store are methods of the class
  `Store.TriviaStore`. The class holds the two tables and the next value of
  the identifier sequence, and its methods have `modifies` clauses.
- A database commit is an input, `commitOk`. When it is false, the session is
  rolled back and the handler answers 422.
- The random choice of the quiz is a nondeterministic pick
  (`var pick :| pick in candidates`). Only membership is specified.

Modules:

- `Wrappers`: `Option`.
- `Text`: ASCII case folding, substring search, digit strings, and the
  decimal rendering of identifiers.
- `Models`: the `Question` and `Category` rows, and the filter and
  lookup queries on them.
- `Http`: error codes, error envelopes and response bodies.
- `Pagination`: the page argument and Python slice semantics.
- `Handlers`: the read handlers and the quiz.
- `Store`: the store class, delete, and create-or-search.
- `Scenario`: a small illustrative data set, chosen to fit what the
  integration tests expect of their database (category 1 is "Science", there
  are at least two categories, some question mentions "Tom").

The formatted shape of a question (`Question.format`) has the same five fields
as the row, so a `Question` value is its own formatted form. The JSON keys
that appear in two spellings (`totalQuestions`/`total_questions`,
`currentCategory`/`current_category`) always carry the same value. The model
keeps each as one field.

Two behaviours of the code that are easy to miss:

- The create branch of POST /questions paginates the re-queried table with the
  request's `page` query argument (`backend/flaskr/__init__.py:172`). It does
  not always use the first page.
- Python's slice semantics are modelled exactly, including negative pages
  wrapping around from the end (`Pagination.NegativePageWraps`). Page 0 is
  always empty (`Pagination.PageZeroEmpty`).

## Model

| member | source | states |
|---|---|---|
| `Pagination.Paginate` | backend/flaskr/__init__.py:10-19 | The page number comes from `RequestedPage` (argument absent or not an integer: page 1). A page never has more than 10 items; for page p >= 1 it is exactly the items at positions [(p-1)*10, min(p*10, len)) in id order |
| `Pagination.PageEmptyIff` | backend/flaskr/__init__.py:13-17 | For p >= 1 the page is empty exactly when (p-1)*10 >= len |
| `Pagination.PageOfIndex` | backend/flaskr/__init__.py:12-17 | The item at index i is on page i/10 + 1, at position i mod 10 |
| `Pagination.PageZeroEmpty` | backend/flaskr/__init__.py:12-17 | Page 0 (slice [-10:0]) is always empty |
| `Pagination.NegativePageWraps` | backend/flaskr/__init__.py:12-17 | A negative page selects a window counted from the end of the data (Python slice wraparound) |
| `Text.ContainsIffOccurs` | backend/flaskr/__init__.py:133-135 | The executable substring test holds exactly when the term occurs at some position of the text |
| `Text.ContainsIgnoreCaseMeaning` | backend/flaskr/__init__.py:133-135 | ILIKE '%term%' holds exactly when the lower-cased term occurs in the lower-cased text |
| `Text.LetterAbsentNoMatch` | backend/flaskr/__init__.py:133-135 | A text in which the term's first letter (in either case) never appears does not match the term |
| `Text.ParseNatToString` | backend/flaskr/__init__.py:240-241 | str(n) is a digit string and int(str(n)) == n |
| `Text.NatToStringInjective` | backend/flaskr/__init__.py:59-61 | Two identifiers have the same str() exactly when they are equal |
| `Models.Select` | backend/flaskr/__init__.py:199-203 | A filter query returns exactly the rows that satisfy the condition, keeps id order, and is no longer than the table |
| `Models.SelectNoneKept` | backend/flaskr/__init__.py:236-252 | A filter that no row satisfies returns the empty result |
| `Models.SortedSameMembersEqual` | backend/flaskr/__init__.py:136 | Two id-ordered results with the same members are equal, so an ordered query result is determined by which rows match |
| `Models.FindQuestion` | backend/flaskr/__init__.py:101 | Lookup by primary key returns a stored question with that id, or nothing when no question has it |
| `Models.FindCategory` | backend/flaskr/__init__.py:194 | Lookup by primary key returns a stored category with that id, or nothing when no category has it |
| `Models.WithoutIdRemovesOneRow` | backend/models.py:51-53 | `WithoutId` is the table after `Question.delete`. Deleting the row at position k leaves exactly the rows before and after it, in order, one row fewer |
| `Http.EnvelopesDistinct` | backend/flaskr/__init__.py:268-322 | Every error envelope has success false and code 400, 404, 422 or 500; distinct errors have distinct codes and messages |
| `Handlers.CategoryMapOf` | backend/flaskr/__init__.py:59-61 | Every category's str(id) is a key, and every key is some category's str(id) |
| `Handlers.CategoryMapSize` | backend/flaskr/__init__.py:54-61 | With unique ids the map has exactly one entry per category |
| `Handlers.CategoryMapNames` | backend/flaskr/__init__.py:59-61 | With unique ids every category's str(id) maps to that category's name |
| `Handlers.RetrieveCategories` | backend/flaskr/__init__.py:52-68 | 404 exactly when there are no categories; otherwise 200 with the map of all categories, equal to `CategoryMapOf` of the table |
| `Handlers.RetrieveQuestions` | backend/flaskr/__init__.py:71-96 | 404 exactly when the page `RequestedPage(page argument)` is empty; otherwise 200 with that page, total = size of the whole table, null current category, and the category map |
| `Handlers.RetrieveQuestionsWindow` | backend/flaskr/__init__.py:73-92 | For p >= 1: 404 exactly when (p-1)*10 >= total; otherwise 1 to 10 questions, the items [(p-1)*10, min(p*10, total)), and total = full count |
| `Handlers.SearchQuestions` | backend/flaskr/__init__.py:129-152 | Always 200: exactly the questions whose text matches the term, in id order, with total = match count and null current category |
| `Handlers.SearchExact` | backend/flaskr/__init__.py:131-141 | The search result equals any id-ordered list of exactly the questions whose lower-cased text contains the lower-cased term |
| `Handlers.GetQuestionsByCategory` | backend/flaskr/__init__.py:192-217 | 404 exactly when no category has the id; otherwise 200 with exactly the questions of that category in id order, total = their count, current category = that category's name |
| `Handlers.ResolveFilter` | backend/flaskr/__init__.py:228-245 | No category, an object without id, or id 0 / "0" means all categories; a digit string is converted to an int; a null id is kept as a comparison with null; a non-object value fails |
| `Handlers.CandidatesMeaning` | backend/flaskr/__init__.py:236-252 | `QuizCandidates` is the quiz query. A quiz candidate is a stored question not previously asked and of the requested category; with all categories, every unasked question is a candidate |
| `Handlers.NullIdAdmitsNothing` | backend/flaskr/__init__.py:231-252 | A quiz category `{"id": null}` is not treated as "all categories"; it compares the non-nullable category column with null, so there is no candidate and the quiz answers null |
| `Handlers.PlayQuiz` | backend/flaskr/__init__.py:220-266 | 400 for no body, 422 for a non-object category; otherwise 200 with null exactly when `QuizCandidates` is empty, else a candidate, which is the only one when one remains |
| `Store.TriviaStore.DeleteQuestion` | backend/flaskr/__init__.py:98-117 | Unknown id: 404, store unchanged; failed commit: 422, store unchanged; else deleted = id and the table becomes `WithoutId(questions, id)`, losing that row only |
| `Store.TriviaStore.CreateOrSearch` | backend/flaskr/__init__.py:119-189 | No body, or a falsy field (`CreateFieldsPresent` fails): 400, store unchanged; truthy searchTerm: the search result, store unchanged; failed commit: 422; else 201, one row appended with created = the fresh id, the requested page of the new table and total = old count + 1 |
| `Store.DeleteRemovesExactlyOne` | backend/flaskr/__init__.py:101-114 | After deleting a present id, the id is absent, every other question remains and the count drops by one |
| `Store.CreateAddsExactlyOne` | backend/flaskr/__init__.py:162-186 | The created id was fresh, is found afterwards, the table grows by exactly that row and stays in id order |
| `Scenario.ScienceListing` | backend/test_flaskr.py:171-179 | With the seed data, category 1 lists its two questions with current category "Science" |
| `Scenario.UnknownCategoryNotFound` | backend/test_flaskr.py:181-188 | An unknown category id gives 404 |
| `Scenario.SearchTomFindsOne` | backend/test_flaskr.py:147-156 | With the illustrative data, searching "Tom" answers 200 with exactly the one question mentioning Tom, so the total is positive |
| `Scenario.OnlyFourthMentionsTom` | backend/flaskr/__init__.py:133-135 | Of the illustrative questions, only "Tom Hanks film?" matches "Tom" case-insensitively |
| `Scenario.ScienceQuizExhausted` | backend/test_flaskr.py:208-227 | A Science quiz after both Science questions were asked has no candidate, so the quiz answers null |
| `Scenario.AllCategoriesLastCandidate` | backend/flaskr/__init__.py:231-236 | Category id "0" admits all categories; with questions 1, 2 and 4 asked, question 3 is the only candidate |

## Left out

- Flask app construction, routing, `jsonify` and response serialisation.
  The model returns `Response` values instead.
- The CORS setup and after-request headers (`backend/flaskr/__init__.py:32-49`).
  They set HTTP headers and contain no logic.
- SQLAlchemy sessions, `db.create_all`, `setup_db` and the database settings
  from the environment (`backend/models.py:5-24`). A failed commit is the
  `commitOk` input.
- `random.choice`. It is a nondeterministic pick; which candidate is picked is
  not specified.
- SQL `ILIKE` wildcards and escapes: a `%`, `_` or backslash inside the search
  term is matched literally, although the database treats `%` and `_` as
  wildcards and backslash as the escape character. Case folding is ASCII only.
- Category ids are integers throughout, although `backend/models.py:35`
  declares the column as text. A text quiz category id that is not a digit
  string therefore matches no question. The database's own casts are not
  modelled: it may instead cast such a text (`"-1"`) or reject it (422).
- `str.isdigit` accepts only ASCII digits in the model. Python also accepts
  other Unicode digits.
- Request-body values of JSON types other than those the client sends are not
  modelled. Examples: a numeric question text, a string difficulty, a
  `previous_questions` value that is not a list of integers, or a searchTerm
  that is not a string. The model covers a missing body, absent keys and JSON nulls in the POST
  body (both are `None`), the falsy values `""` and `0`, an absent or null quiz
  category, and a null quiz-category id. A null `previous_questions` behaves
  like an empty list and is passed as one.
- `Store.TriviaStore.CreateOrSearch`: a failed insert leaves `nextId`
  unchanged, so an identifier-sequence value consumed by the failed insert is
  not modelled.
- `Handlers.PlayQuiz`: the "unexpected failure" 422 is produced only for a
  non-object `quiz_category` (whose `.get` raises). Database failures during
  the quiz query are not modelled.
- The 500 handler exists as `InternalServerError`, but no modelled path
  produces it. The source triggers it only for unhandled faults.
- `Question.update` (`backend/models.py:48-49`) is not reachable from any
  route and is not modelled.
- The quiz candidates come from an unordered query. The model keeps them in
  table order, which matters only for the unspecified random pick.

/**
  The request handlers that only read the store: category listing, paginated
  question listing, search, questions by category, and quiz play. Each takes
  the question and category tables (in identifier order) as arguments.
*/
module Handlers {
  import opened Wrappers
  import opened Text
  import opened Models
  import opened Http
  import opened Pagination

  // ---------------------------------------------------------------- categories

  /** `{str(c.id): c.type for c in categories}`; a later entry overwrites an earlier one with the same key. */
  function CategoryMapOf(cats: seq<Category>): (m: map<string, string>)
    ensures forall c :: c in cats ==> NatToString(c.id) in m
    ensures forall k :: k in m ==> exists c :: c in cats && NatToString(c.id) == k
    decreases |cats|
  {
    if cats == [] then map[]
    else
      var init := cats[..|cats| - 1];
      var last := cats[|cats| - 1];
      assert forall c :: c in cats ==> c in init || c == last;
      assert forall c :: c in init ==> c in cats;
      CategoryMapOf(init)[NatToString(last.id) := last.name]
  }

  lemma CategoriesPrefixSorted(cats: seq<Category>)
    requires CategoriesSortedById(cats) && cats != []
    ensures CategoriesSortedById(cats[..|cats| - 1])
  {
    var init := cats[..|cats| - 1];
    forall i, j | 0 <= i < j < |init|
      ensures init[i].id < init[j].id
    {
      assert init[i] == cats[i] && init[j] == cats[j];
    }
  }

  /** With unique identifiers, the last category's key is not yet in the map of the others. */
  lemma LastKeyFresh(cats: seq<Category>)
    requires CategoriesSortedById(cats) && cats != []
    ensures NatToString(cats[|cats| - 1].id) !in CategoryMapOf(cats[..|cats| - 1])
  {
    var init := cats[..|cats| - 1];
    var last := cats[|cats| - 1];
    forall c | c in init
      ensures NatToString(c.id) != NatToString(last.id)
    {
      var i :| 0 <= i < |init| && init[i] == c;
      assert cats[i] == c;
      NatToStringInjective(c.id, last.id);
    }
  }

  /** With unique identifiers, the category map has one entry per category. */
  lemma {:induction false} CategoryMapSize(cats: seq<Category>)
    requires CategoriesSortedById(cats)
    ensures |CategoryMapOf(cats)| == |cats|
    decreases |cats|
  {
    if cats != [] {
      CategoriesPrefixSorted(cats);
      CategoryMapSize(cats[..|cats| - 1]);
      LastKeyFresh(cats);
    }
  }

  /** With unique identifiers, the decimal identifier of the category at `i` maps to its name. */
  lemma {:induction false} CategoryMapNameAt(cats: seq<Category>, i: nat)
    requires CategoriesSortedById(cats) && i < |cats|
    ensures NatToString(cats[i].id) in CategoryMapOf(cats)
    ensures CategoryMapOf(cats)[NatToString(cats[i].id)] == cats[i].name
    decreases |cats|
  {
    var init := cats[..|cats| - 1];
    var last := cats[|cats| - 1];
    if i < |cats| - 1 {
      CategoriesPrefixSorted(cats);
      assert cats[i] == init[i];
      CategoryMapNameAt(init, i);
      assert cats[i].id < last.id;
      NatToStringInjective(cats[i].id, last.id);
    }
  }

  /** With unique identifiers, each category's decimal identifier maps to that category's name. */
  lemma CategoryMapNames(cats: seq<Category>)
    requires CategoriesSortedById(cats)
    ensures forall i :: 0 <= i < |cats| ==> CategoryMapOf(cats)[NatToString(cats[i].id)] == cats[i].name
  {
    forall i | 0 <= i < |cats|
      ensures CategoryMapOf(cats)[NatToString(cats[i].id)] == cats[i].name
    {
      CategoryMapNameAt(cats, i);
    }
  }

  /** GET /categories */
  function RetrieveCategories(cats: seq<Category>): (r: Response)
    ensures r.Err? <==> cats == []
    ensures r.Err? ==> r.error == NotFound
    ensures r.Ok? ==> r.status == 200 && r.body.CategoryList?
    ensures r.Ok? ==> r.body.categories == CategoryMapOf(cats)
    ensures r.Ok? ==> forall c :: c in cats ==> NatToString(c.id) in r.body.categories
    ensures r.Ok? ==> forall k :: k in r.body.categories ==> exists c :: c in cats && NatToString(c.id) == k
  {
    if |cats| == 0 then Err(NotFound)
    else Ok(200, CategoryList(CategoryMapOf(cats)))
  }

  // ---------------------------------------------------------------- listing

  /** GET /questions?page=N */
  function RetrieveQuestions(pageArg: Option<int>, qs: seq<Question>, cats: seq<Category>): (r: Response)
    ensures r.Err? ==> r.error == NotFound
    ensures r.Err? <==> Paginate(RequestedPage(pageArg), qs) == []
    ensures r.Ok? ==> r.status == 200 && r.body.QuestionPage?
    ensures r.Ok? ==> r.body.questions == Paginate(RequestedPage(pageArg), qs)
    ensures r.Ok? ==> r.body.totalQuestions == |qs| && r.body.currentCategory == None
    ensures r.Ok? ==> r.body.categories == CategoryMapOf(cats)
  {
    var current := Paginate(RequestedPage(pageArg), qs);
    if |current| == 0 then Err(NotFound)
    else Ok(200, QuestionPage(current, |qs|, None, CategoryMapOf(cats)))
  }

  /**
    For a page numbered from 1 the listing is 404 exactly when the page starts
    past the data; otherwise it holds the items at positions
    `[(page-1)*10, min(page*10, total))` and reports the full total.
  */
  lemma RetrieveQuestionsWindow(page: int, qs: seq<Question>, cats: seq<Category>)
    requires page >= 1
    ensures var r := RetrieveQuestions(Some(page), qs, cats);
      && (r.Err? <==> (page - 1) * QuestionsPerPage >= |qs|)
      && (r.Ok? ==> r.body.questions == qs[(page - 1) * QuestionsPerPage..Min(page * QuestionsPerPage, |qs|)])
      && (r.Ok? ==> 0 < |r.body.questions| <= QuestionsPerPage && r.body.totalQuestions == |qs|)
  {
    PageEmptyIff(page, qs);
  }

  // ---------------------------------------------------------------- search

  /** The `ILIKE '%term%'` condition on the question text. */
  predicate MatchesTerm(q: Question, term: string)
  {
    ContainsIgnoreCase(q.question, term)
  }

  function SearchMatches(qs: seq<Question>, term: string): seq<Question>
  {
    Select(qs, (q: Question) => MatchesTerm(q, term))
  }

  /** The search branch of POST /questions: all matches, unpaginated, never 404. */
  function SearchQuestions(term: string, qs: seq<Question>): (r: Response)
    ensures r.Ok? && r.status == 200 && r.body.SearchResults?
    ensures r.body.totalQuestions == |r.body.questions| && r.body.currentCategory == None
    ensures forall q :: q in r.body.questions <==> q in qs && MatchesTerm(q, term)
    ensures SortedById(qs) ==> SortedById(r.body.questions)
  {
    var matches := SearchMatches(qs, term);
    Ok(200, SearchResults(matches, |matches|, None))
  }

  /**
    The search returns exactly the questions whose lower-cased text contains
    the lower-cased term, and it is the only id-ordered sequence of them.
  */
  lemma SearchExact(term: string, qs: seq<Question>, expected: seq<Question>)
    requires SortedById(qs) && SortedById(expected)
    requires forall q :: q in expected <==> q in qs && Occurs(Lower(term), Lower(q.question))
    ensures SearchQuestions(term, qs).body.questions == expected
    ensures SearchQuestions(term, qs).body.totalQuestions == |expected|
  {
    var found := SearchQuestions(term, qs).body.questions;
    forall q
      ensures q in found <==> q in expected
    {
      ContainsIgnoreCaseMeaning(q.question, term);
    }
    SortedSameMembersEqual(found, expected);
  }

  // ---------------------------------------------------------------- by category

  function QuestionsInCategory(qs: seq<Question>, category: int): seq<Question>
  {
    Select(qs, (q: Question) => q.category == category)
  }

  /** GET /categories/{id}/questions */
  function GetQuestionsByCategory(categoryId: nat, qs: seq<Question>, cats: seq<Category>): (r: Response)
    ensures r.Err? <==> forall c :: c in cats ==> c.id != categoryId
    ensures r.Err? ==> r.error == NotFound
    ensures r.Ok? ==> r.status == 200 && r.body.CategoryQuestions?
    ensures r.Ok? ==> exists c :: c in cats && c.id == categoryId && r.body.currentCategory == Some(c.name)
    ensures r.Ok? ==> forall q :: q in r.body.questions <==> q in qs && q.category == categoryId
    ensures r.Ok? ==> r.body.totalQuestions == |r.body.questions|
    ensures r.Ok? && SortedById(qs) ==> SortedById(r.body.questions)
  {
    match FindCategory(cats, categoryId)
    case None => Err(NotFound)
    case Some(c) =>
      var selection := QuestionsInCategory(qs, categoryId);
      Ok(200, CategoryQuestions(selection, |selection|, Some(c.name)))
  }

  // ---------------------------------------------------------------- quiz

  /** The value of the `id` key of `quiz_category`. */
  datatype IdValue = IntId(n: int) | TextId(s: string) | NullId  // NullId: JSON null

  /** The `quiz_category` field of the quiz request. */
  datatype QuizCategoryArg =
    | NoCategory                           // absent or null
    | NonObject                            // any JSON value that is not an object: `.get` raises
    | CategoryObject(id: Option<IdValue>)  // an object, with or without an `id` key

  datatype QuizBody = QuizBody(previousQuestions: seq<int>, quizCategory: QuizCategoryArg)

  /** Which questions the category part of the quiz admits. */
  datatype CategoryFilter = AnyCategory | Compare(value: IdValue)

  /**
    The category resolution of `play_quiz`: no category, an empty object, or an
    id whose `str` is "0" admit every category; a digit string is converted to
    an integer; a null id (`str(None)` is "None") is compared as it is; a
    non-object fails (the AttributeError that becomes 422).
  */
  function ResolveFilter(arg: QuizCategoryArg): (r: Option<CategoryFilter>)
    ensures r.None? <==> arg.NonObject?
    ensures r == Some(AnyCategory) <==>
      arg.NoCategory? || (arg.CategoryObject? && arg.id in {None, Some(IntId(0)), Some(TextId("0"))})
    ensures r.Some? && r.value.Compare? && r.value.value.IntId? ==>
      (arg.id == Some(r.value.value) && r.value.value.n != 0) ||
      (exists s :: arg.id == Some(TextId(s)) && s != "0" && IsDigitString(s) && ParseDigits(s) == r.value.value.n)
    ensures r.Some? && r.value.Compare? && r.value.value.TextId? ==>
      arg.id == Some(r.value.value) && !IsDigitString(r.value.value.s)
    ensures r == Some(Compare(NullId)) <==> arg == CategoryObject(Some(NullId))
  {
    match arg
    case NoCategory => Some(AnyCategory)
    case NonObject => None
    case CategoryObject(None) => Some(AnyCategory)
    case CategoryObject(Some(IntId(n))) => if n == 0 then Some(AnyCategory) else Some(Compare(IntId(n)))
    case CategoryObject(Some(TextId(s))) =>
      if s == "0" then Some(AnyCategory)
      else if IsDigitString(s) then Some(Compare(IntId(ParseDigits(s))))
      else Some(Compare(TextId(s)))
    case CategoryObject(Some(NullId)) => Some(Compare(NullId))
  }

  /**
    `Question.category == category_id`; a text value never equals an integer
    category, and a null id becomes `IS NULL`, which no stored row satisfies.
  */
  predicate Admits(f: CategoryFilter, q: Question)
  {
    match f
    case AnyCategory => true
    case Compare(IntId(n)) => q.category == n
    case Compare(TextId(_)) => false
    case Compare(NullId) => false  // `category IS NULL` on a non-nullable column
  }

  /** The quiz candidates: admitted by the category filter and not previously asked. */
  function QuizCandidates(qs: seq<Question>, f: CategoryFilter, previous: seq<int>): seq<Question>
  {
    Select(qs, (q: Question) => Admits(f, q) && q.id !in previous)
  }

  /** A candidate is a stored question, was not asked before, and belongs to the requested category. */
  lemma CandidatesMeaning(qs: seq<Question>, f: CategoryFilter, previous: seq<int>, q: Question)
    ensures q in QuizCandidates(qs, f, previous) <==> q in qs && q.id !in previous && Admits(f, q)
    ensures f == AnyCategory ==> (q in QuizCandidates(qs, f, previous) <==> q in qs && q.id !in previous)
    ensures f.Compare? && f.value.IntId? ==>
      (q in QuizCandidates(qs, f, previous) <==> q in qs && q.id !in previous && q.category == f.value.n)
  {
  }

  /** `quiz_category = {"id": null}` is not "all categories": no question is a candidate, so the quiz answers null. */
  lemma NullIdAdmitsNothing(qs: seq<Question>, previous: seq<int>)
    ensures ResolveFilter(CategoryObject(Some(NullId))) == Some(Compare(NullId))
    ensures QuizCandidates(qs, Compare(NullId), previous) == []
  {
    SelectNoneKept(qs, (q: Question) => Admits(Compare(NullId), q) && q.id !in previous);
  }

  /**
    POST /quizzes. The random choice is any candidate: the result is `null`
    exactly when no candidate is left, a single remaining candidate is the one
    returned, and a returned question is always a candidate.
  */
  method PlayQuiz(body: Option<QuizBody>, qs: seq<Question>) returns (r: Response)
    ensures body.None? ==> r == Err(BadRequest)
    ensures body.Some? && body.value.quizCategory.NonObject? ==> r == Err(Unprocessable)
    ensures body.Some? && !body.value.quizCategory.NonObject? ==> r.Ok? && r.status == 200 && r.body.QuizQuestion?
    ensures r.Ok? ==>
      var f := ResolveFilter(body.value.quizCategory).value;
      var candidates := QuizCandidates(qs, f, body.value.previousQuestions);
      && (r.body.question.None? <==> candidates == [])
      && (r.body.question.Some? ==> r.body.question.value in candidates)
      && (|candidates| == 1 ==> r.body.question == Some(candidates[0]))
    ensures r.Ok? && r.body.question.Some? ==>
      r.body.question.value in qs && r.body.question.value.id !in body.value.previousQuestions
  {
    if body.None? {
      return Err(BadRequest);
    }
    var previous := body.value.previousQuestions;
    var filter := ResolveFilter(body.value.quizCategory);
    if filter.None? {
      return Err(Unprocessable);
    }
    var candidates := QuizCandidates(qs, filter.value, previous);
    if |candidates| == 0 {
      return Ok(200, QuizQuestion(None));
    }
    assert candidates[0] in candidates;
    var pick :| pick in candidates;
    assert |candidates| == 1 ==> candidates == [candidates[0]];
    r := Ok(200, QuizQuestion(Some(pick)));
  }
}

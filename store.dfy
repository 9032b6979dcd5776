/**
  The persistent store and the two handlers that change it: DELETE
  /questions/{id} and POST /questions (search or create). The database commit
  is an input: `commitOk == false` stands for a failed commit, after which the
  session is rolled back and the handler answers 422.
*/
module Store {
  import opened Wrappers
  import opened Text
  import opened Models
  import opened Http
  import opened Pagination
  import opened Handlers

  /** The JSON body of POST /questions; `None` fields are absent keys (or JSON null). */
  datatype PostBody = PostBody(
    searchTerm: Option<string>,
    question: Option<string>,
    answer: Option<string>,
    category: Option<int>,
    difficulty: Option<int>)

  /** Python truthiness of a text field: present and not empty. */
  predicate TruthyText(v: Option<string>)
  {
    v.Some? && v.value != ""
  }

  /** Python truthiness of a number field: present and not zero. */
  predicate TruthyInt(v: Option<int>)
  {
    v.Some? && v.value != 0
  }

  /** The create branch accepts the body only when all four fields are truthy. */
  predicate CreateFieldsPresent(b: PostBody)
  {
    TruthyText(b.question) && TruthyText(b.answer) && TruthyInt(b.category) && TruthyInt(b.difficulty)
  }

  class TriviaStore {
    /** The `questions` table in identifier order. */
    var questions: seq<Question>
    /** The `categories` table in identifier order. */
    var categories: seq<Category>
    /** The next value of the question identifier sequence. */
    var nextId: nat

    ghost predicate Valid()
      reads this
    {
      && SortedById(questions)
      && CategoriesSortedById(categories)
      && forall q :: q in questions ==> q.id < nextId
    }

    constructor (cats: seq<Category>, qs: seq<Question>, next: nat)
      requires CategoriesSortedById(cats) && SortedById(qs)
      requires forall q :: q in qs ==> q.id < next
      ensures Valid()
      ensures categories == cats && questions == qs && nextId == next
    {
      categories := cats;
      questions := qs;
      nextId := next;
    }

    /** DELETE /questions/{id} */
    method DeleteQuestion(id: nat, commitOk: bool) returns (r: Response)
      requires Valid()
      modifies this
      ensures Valid()
      ensures categories == old(categories) && nextId == old(nextId)
      ensures FindQuestion(old(questions), id).None? ==> r == Err(NotFound) && questions == old(questions)
      ensures FindQuestion(old(questions), id).Some? && !commitOk ==>
        r == Err(Unprocessable) && questions == old(questions)
      ensures FindQuestion(old(questions), id).Some? && commitOk ==>
        r == Ok(200, DeletedQuestion(id)) && questions == WithoutId(old(questions), id)
    {
      var found := FindQuestion(questions, id);
      if found.None? {
        return Err(NotFound);
      }
      if !commitOk {
        return Err(Unprocessable);
      }
      questions := WithoutId(questions, id);
      r := Ok(200, DeletedQuestion(id));
    }

    /** POST /questions: search when `searchTerm` is truthy, otherwise create. */
    method CreateOrSearch(pageArg: Option<int>, body: Option<PostBody>, commitOk: bool) returns (r: Response)
      requires Valid()
      modifies this
      ensures Valid()
      ensures categories == old(categories)
      ensures body.None? ==> r == Err(BadRequest) && questions == old(questions) && nextId == old(nextId)
      ensures body.Some? && TruthyText(body.value.searchTerm) ==>
        r == SearchQuestions(body.value.searchTerm.value, old(questions))
        && questions == old(questions) && nextId == old(nextId)
      ensures body.Some? && !TruthyText(body.value.searchTerm) && !CreateFieldsPresent(body.value) ==>
        r == Err(BadRequest) && questions == old(questions) && nextId == old(nextId)
      ensures body.Some? && !TruthyText(body.value.searchTerm) && CreateFieldsPresent(body.value) && !commitOk ==>
        r == Err(Unprocessable) && questions == old(questions) && nextId == old(nextId)
      ensures body.Some? && !TruthyText(body.value.searchTerm) && CreateFieldsPresent(body.value) && commitOk ==>
        var b := body.value;
        var row := Question(old(nextId), b.question.value, b.answer.value, b.category.value, b.difficulty.value);
        && questions == old(questions) + [row]
        && nextId == old(nextId) + 1
        && r == Ok(201, CreatedQuestion(row.id, Paginate(RequestedPage(pageArg), questions), |questions|))
    {
      if body.None? {
        return Err(BadRequest);
      }
      var b := body.value;
      if TruthyText(b.searchTerm) {
        return SearchQuestions(b.searchTerm.value, questions);
      }
      if !CreateFieldsPresent(b) {
        return Err(BadRequest);
      }
      if !commitOk {
        return Err(Unprocessable);
      }
      var row := Question(nextId, b.question.value, b.answer.value, b.category.value, b.difficulty.value);
      questions := questions + [row];
      nextId := nextId + 1;
      r := Ok(201, CreatedQuestion(row.id, Paginate(RequestedPage(pageArg), questions), |questions|));
    }
  }

  /**
    After a successful delete the identifier is gone, every other row is still
    there in the same order, and the table is one row shorter.
  */
  lemma DeleteRemovesExactlyOne(qs: seq<Question>, id: nat)
    requires SortedById(qs) && FindQuestion(qs, id).Some?
    ensures FindQuestion(WithoutId(qs, id), id).None?
    ensures forall q :: q in WithoutId(qs, id) <==> q in qs && q.id != id
    ensures |WithoutId(qs, id)| == |qs| - 1
  {
    var q := FindQuestion(qs, id).value;
    var k :| 0 <= k < |qs| && qs[k] == q;
    WithoutIdRemovesOneRow(qs, k);
  }

  /**
    A successful create adds exactly one row, under a fresh identifier that is
    the `created` value, and the reported total is the old count plus one.
  */
  lemma CreateAddsExactlyOne(qs: seq<Question>, next: nat, row: Question)
    requires SortedById(qs) && (forall q :: q in qs ==> q.id < next) && row.id == next
    ensures FindQuestion(qs, row.id).None?
    ensures FindQuestion(qs + [row], row.id) == Some(row)
    ensures forall q :: q in qs + [row] <==> q in qs || q == row
    ensures |qs + [row]| == |qs| + 1
    ensures SortedById(qs + [row])
  {
  }
}

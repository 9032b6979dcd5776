/**
  An illustrative data set, consistent with what the integration tests
  expect of their database: category 1 is "Science" and has questions, there
  are at least two categories, and some question text contains "Tom".
*/
module Scenario {
  import opened Wrappers
  import opened Text
  import opened Models
  import opened Http
  import opened Handlers

  function SeedCategories(): seq<Category>
  {
    [Category(1, "Science"), Category(2, "Art")]
  }

  function SeedQuestions(): seq<Question>
  {
    [Question(1, "H2O?", "Water", 1, 1),
     Question(2, "Speed of sound?", "343 m/s", 1, 3),
     Question(3, "Mona Lisa?", "Leonardo", 2, 2),
     Question(4, "Tom Hanks film?", "Big", 2, 4)]
  }

  /** Listing category 1 finds its two questions and reports the name "Science". */
  lemma ScienceListing()
    ensures var r := GetQuestionsByCategory(1, SeedQuestions(), SeedCategories());
      r.Ok? && r.body.totalQuestions == 2 && r.body.currentCategory == Some("Science")
      && r.body.questions == SeedQuestions()[..2]
  {
    var qs := SeedQuestions();
    var r := GetQuestionsByCategory(1, qs, SeedCategories());
    assert FindCategory(SeedCategories(), 1) == Some(Category(1, "Science"));
    assert qs[..2] == [qs[0], qs[1]];
    SortedSameMembersEqual(r.body.questions, qs[..2]);
  }

  /** An unknown category is 404. */
  lemma UnknownCategoryNotFound()
    ensures GetQuestionsByCategory(9999, SeedQuestions(), SeedCategories()) == Err(NotFound)
  {
  }

  /** Once both Science questions were asked, a Science quiz has no candidate left. */
  lemma ScienceQuizExhausted()
    ensures var f := ResolveFilter(CategoryObject(Some(IntId(1))));
      f.Some? && QuizCandidates(SeedQuestions(), f.value, [1, 2]) == []
  {
    var f := ResolveFilter(CategoryObject(Some(IntId(1)))).value;
    var c := QuizCandidates(SeedQuestions(), f, [1, 2]);
    assert forall q :: q in c ==> q in SeedQuestions() && q.category == 1 && q.id !in [1, 2];
  }

  /** With no category ("0" as text) and one question left unasked, that question is the only candidate. */
  lemma AllCategoriesLastCandidate()
    ensures var f := ResolveFilter(CategoryObject(Some(TextId("0"))));
      f == Some(AnyCategory) && QuizCandidates(SeedQuestions(), f.value, [1, 2, 4]) == [SeedQuestions()[2]]
  {
    var qs := SeedQuestions();
    var c := QuizCandidates(qs, AnyCategory, [1, 2, 4]);
    SortedSameMembersEqual(c, [qs[2]]);
  }

  /** A text without the letter t (in either case) does not match the term "Tom". */
  lemma NoLetterTNoTom(q: Question)
    requires forall i :: 0 <= i < |q.question| ==> q.question[i] != 't' && q.question[i] != 'T'
    ensures !MatchesTerm(q, "Tom")
  {
    LetterAbsentNoMatch(q.question, "Tom");
  }

  /** "Tom Hanks film?" starts with "tom" once lower-cased. */
  lemma TomHanksMatches()
    ensures MatchesTerm(SeedQuestions()[3], "Tom")
  {
    var text := "Tom Hanks film?";
    var low := Lower(text);
    assert low[0] == 't' && low[1] == 'o' && low[2] == 'm';
    assert Lower("Tom") == low[0..3];
    assert OccursAt(Lower("Tom"), low, 0);
    ContainsIgnoreCaseMeaning(text, "Tom");
  }

  /** The first three seed questions do not mention "tom". */
  lemma FirstThreeNoTom(i: nat)
    requires i < 3
    ensures !MatchesTerm(SeedQuestions()[i], "Tom")
  {
    var q := SeedQuestions()[i];
    if i == 0 {
      assert q.question == "H2O?";
    } else if i == 1 {
      assert q.question == "Speed of sound?";
    } else {
      assert q.question == "Mona Lisa?";
    }
    NoLetterTNoTom(q);
  }

  /** Of the seed questions, only the fourth matches the term "Tom", in any case. */
  lemma OnlyFourthMentionsTom()
    ensures MatchesTerm(SeedQuestions()[3], "Tom")
    ensures forall i :: 0 <= i < 3 ==> !MatchesTerm(SeedQuestions()[i], "Tom")
  {
    TomHanksMatches();
    forall i | 0 <= i < 3
      ensures !MatchesTerm(SeedQuestions()[i], "Tom")
    {
      FirstThreeNoTom(i);
    }
  }

  /** Searching "Tom" finds the one question that mentions Tom, with status 200. */
  lemma SearchTomFindsOne()
    ensures var r := SearchQuestions("Tom", SeedQuestions());
      r.Ok? && r.status == 200 && r.body.totalQuestions == 1 && r.body.questions == [SeedQuestions()[3]]
  {
    var qs := SeedQuestions();
    OnlyFourthMentionsTom();
    var found := SearchQuestions("Tom", qs).body.questions;
    SortedSameMembersEqual(found, [qs[3]]);
  }
}

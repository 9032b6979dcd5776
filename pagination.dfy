/**
  `paginate_questions`: the page number comes from the `page` query argument
  (default 1 when absent or not an integer) and selects the slice
  `questions[start:start + 10]` with `start = (page - 1) * 10`, under Python's
  slice rules (negative bounds count from the end, bounds are clamped).
*/
module Pagination {
  import opened Wrappers
  import opened Models

  const QuestionsPerPage: nat := 10

  /** `request.args.get("page", 1, type=int)`; `None` stands for an absent or non-integer argument. */
  function RequestedPage(arg: Option<int>): int
  {
    if arg.Some? then arg.value else 1
  }

  function Min(a: int, b: int): int
  {
    if a <= b then a else b
  }

  /** Python's normalisation of one slice bound for a sequence of length `n`. */
  function ClampIndex(i: int, n: nat): (r: nat)
    ensures r <= n
  {
    if i < 0 then (if i + n < 0 then 0 else i + n)
    else if i > n then n
    else i
  }

  /** Python's `s[start:stop]` with step 1. */
  function PySlice<T>(s: seq<T>, start: int, stop: int): seq<T>
  {
    var lo := ClampIndex(start, |s|);
    var hi := ClampIndex(stop, |s|);
    if lo < hi then s[lo..hi] else []
  }

  /** The formatted questions on page `page` of `selection`. */
  function Paginate(page: int, selection: seq<Question>): (r: seq<Question>)
    ensures |r| <= QuestionsPerPage
    ensures page >= 1 ==>
      r == selection[Min((page - 1) * QuestionsPerPage, |selection|)..Min(page * QuestionsPerPage, |selection|)]
  {
    var start := (page - 1) * QuestionsPerPage;
    PySlice(selection, start, start + QuestionsPerPage)
  }

  /** A page numbered from 1 is empty exactly when it starts at or past the end of the data. */
  lemma PageEmptyIff(page: int, selection: seq<Question>)
    requires page >= 1
    ensures Paginate(page, selection) == [] <==> (page - 1) * QuestionsPerPage >= |selection|
  {
    if (page - 1) * QuestionsPerPage < |selection| {
      var r := Paginate(page, selection);
      assert r[0] == selection[(page - 1) * QuestionsPerPage];
    }
  }

  /** Every question sits on exactly one page, at its position modulo the page size. */
  lemma PageOfIndex(selection: seq<Question>, i: nat)
    requires i < |selection|
    ensures var page := i / QuestionsPerPage + 1;
      i % QuestionsPerPage < |Paginate(page, selection)| &&
      Paginate(page, selection)[i % QuestionsPerPage] == selection[i]
  {
    var page := i / QuestionsPerPage + 1;
    assert (page - 1) * QuestionsPerPage + i % QuestionsPerPage == i;
  }

  /** Page 0 is always empty (its slice is `[-10:0]`). */
  lemma PageZeroEmpty(selection: seq<Question>)
    ensures Paginate(0, selection) == []
  {
  }

  /**
    A negative page wraps around: page `p < 0` is the window that ends
    `-p * 10` items before the end of the data, when the data is long enough.
  */
  lemma NegativePageWraps(page: int, selection: seq<Question>)
    requires page < 0 && (1 - page) * QuestionsPerPage <= |selection|
    ensures Paginate(page, selection) ==
      selection[|selection| + (page - 1) * QuestionsPerPage..|selection| + page * QuestionsPerPage]
  {
  }
}

/**
  Handler outcomes. A handler either succeeds with a status code (200 or 201)
  and a body, or aborts with one of the errors that the application's error
  handlers turn into the JSON envelope `{success: false, error, message}`.
  Keys that the API emits in two spellings (`totalQuestions`/`total_questions`,
  `currentCategory`/`current_category`) carry the same value and are one field here.
*/
module Http {
  import opened Wrappers
  import opened Models

  datatype HttpError = BadRequest | NotFound | Unprocessable | InternalServerError
  {
    function Code(): int
    {
      match this
      case BadRequest => 400
      case NotFound => 404
      case Unprocessable => 422
      case InternalServerError => 500
    }

    function Message(): string
    {
      match this
      case BadRequest => "bad request"
      case NotFound => "resource not found"
      case Unprocessable => "unprocessable"
      case InternalServerError => "internal server error"
    }
  }

  /** The error body every error handler returns. */
  datatype ErrorEnvelope = ErrorEnvelope(success: bool, error: int, message: string)

  function Envelope(e: HttpError): ErrorEnvelope
  {
    ErrorEnvelope(false, e.Code(), e.Message())
  }

  /** Each error handler answers with its own status code, and no two share a code or a message. */
  lemma EnvelopesDistinct(e1: HttpError, e2: HttpError)
    ensures !Envelope(e1).success
    ensures Envelope(e1).error in {400, 404, 422, 500}
    ensures e1 != e2 ==> Envelope(e1).error != Envelope(e2).error && Envelope(e1).message != Envelope(e2).message
  {
  }

  /** The success bodies of the six endpoints. */
  datatype Body =
    | CategoryList(categories: map<string, string>)
    | QuestionPage(questions: seq<Question>, totalQuestions: nat, currentCategory: Option<string>,
                   categories: map<string, string>)
    | SearchResults(questions: seq<Question>, totalQuestions: nat, currentCategory: Option<string>)
    | CreatedQuestion(created: nat, questions: seq<Question>, totalQuestions: nat)
    | DeletedQuestion(deleted: nat)
    | CategoryQuestions(questions: seq<Question>, totalQuestions: nat, currentCategory: Option<string>)
    | QuizQuestion(question: Option<Question>)

  datatype Response = Ok(status: int, body: Body) | Err(error: HttpError)
  {
    /** The HTTP status code of the response. */
    function StatusCode(): int
    {
      if Ok? then status else error.Code()
    }

    /** The top-level `success` field. */
    predicate Success()
    {
      Ok?
    }
  }
}

/** GlobalExceptionHandler: the ProblemDetails response written for each
    exception kind a handler can raise. Logging is left out. */
module ExceptionHandler {
  import opened Common

  /** The ProblemDetails body; errors is the "errors" extension, present
      (non-empty) only for a validation failure. */
  datatype Problem = Problem(status: int, title: string, detail: string, errors: seq<ValidationFailure>, instance: string)

  const InternalTitle: string := "Internal Server Error"
  const InternalDetail: string := "An unexpected error occurred."
  const ValidationTitle: string := "Validation Error"
  const ValidationDetail: string := "One or more validation errors occurred."
  const NotFoundTitle: string := "Resource Not Found"
  const ForbiddenTitle: string := "Forbidden"
  const ConflictTitle: string := "Business Logic Error / Conflict"
  const InvalidArgumentTitle: string := "Invalid Argument"

  /** The message the exception carries, shown as the detail of every
      non-validation, non-internal response. */
  function MessageOf(e: Error): string {
    match e
    case ValidationFailed(_) => ""
    case KeyNotFound(m) => m
    case Unauthorized(m) => m
    case InvalidOperation(m) => m
    case InvalidArgument(m) => m
    case Unhandled(m) => m
  }

  /** TryHandleAsync: start from the 500 defaults, then overwrite title,
      status and detail for the recognised kinds. */
  function ProblemFor(e: Error, path: string): (r: Problem)
    ensures r.instance == path
    ensures r.status == 400 <==> e.ValidationFailed? || e.InvalidOperation? || e.InvalidArgument?
    ensures r.status == 404 <==> e.KeyNotFound?
    ensures r.status == 403 <==> e.Unauthorized?
    ensures r.status == 500 <==> e.Unhandled?
    ensures r.status in {400, 403, 404, 500}
    ensures e.ValidationFailed? ==> r.title == ValidationTitle && r.detail == ValidationDetail
    ensures e.KeyNotFound? ==> r.title == NotFoundTitle
    ensures e.Unauthorized? ==> r.title == ForbiddenTitle
    ensures e.InvalidOperation? ==> r.title == ConflictTitle
    ensures e.InvalidArgument? ==> r.title == InvalidArgumentTitle
    ensures e.Unhandled? ==> r.title == InternalTitle && r.detail == InternalDetail
    ensures !e.ValidationFailed? && !e.Unhandled? ==> r.detail == MessageOf(e)
    ensures r.errors != [] ==> e.ValidationFailed?
    ensures e.ValidationFailed? ==> r.errors == e.failures
  {
    var base := Problem(500, InternalTitle, InternalDetail, [], path);
    match e
    case ValidationFailed(fs) =>
      base.(title := ValidationTitle, status := 400, detail := ValidationDetail, errors := fs)
    case KeyNotFound(m) => base.(title := NotFoundTitle, status := 404, detail := m)
    case Unauthorized(m) => base.(title := ForbiddenTitle, status := 403, detail := m)
    case InvalidOperation(m) => base.(title := ConflictTitle, status := 400, detail := m)
    case InvalidArgument(m) => base.(title := InvalidArgumentTitle, status := 400, detail := m)
    case Unhandled(_) => base
  }

  /** Internal detail never leaks: whatever an unexpected exception says,
      the response is the same. */
  lemma UnhandledIsOpaque(m1: string, m2: string, path: string)
    ensures ProblemFor(Unhandled(m1), path) == ProblemFor(Unhandled(m2), path)
  {
  }

  /** The three 400 kinds are told apart by title. */
  lemma BadRequestTitlesDistinct(e1: Error, e2: Error, path: string)
    requires ProblemFor(e1, path).status == 400 && ProblemFor(e2, path).status == 400
    requires ProblemFor(e1, path).title == ProblemFor(e2, path).title
    ensures e1.ValidationFailed? <==> e2.ValidationFailed?
    ensures e1.InvalidOperation? <==> e2.InvalidOperation?
    ensures e1.InvalidArgument? <==> e2.InvalidArgument?
  {
  }
}

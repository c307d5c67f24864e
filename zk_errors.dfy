/** The error values the core returns: a `ZkError` built from an error type and
    optional metadata (`ZkErrorBuilder{}.Build(type, metadata)`). */
module ZkErrors {

  /** The error types the core builds; the first four come from the shared
      utility library, the rest from utils/zkerrors/zkErrors.go. */
  datatype ZkErrorType =
    | BadRequest
    | DbError
    | InternalServer
    | BadRequestLimitIsNotInteger
    | BadRequestIssueHashEmpty
    | BadRequestTraceIdEmpty
    | BadRequestSpanIdEmpty
    | BadRequestEmptyUrl
    | NotFound

  /** The `metadata` argument of `Build`: nil, a message, or a wrapped error. */
  datatype Metadata = NoMetadata | Text(message: string) | Cause(inner: ZkError)

  datatype ZkError = ZkError(errorType: ZkErrorType, metadata: Metadata)

  /** `ZkErrorBuilder{}.Build(t, nil)`. */
  function Plain(t: ZkErrorType): (e: ZkError)
    ensures e.errorType == t && e.metadata.NoMetadata?
  {
    ZkError(t, NoMetadata)
  }
}

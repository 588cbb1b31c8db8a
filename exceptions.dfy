/** The sealed `TrailerException` hierarchy (core/exception/TrailerException.kt). */
module Exceptions {

  /** The six subclasses, one case each. */
  datatype ExceptionKind =
    | Network        // NetworkException: transport or unexpected failures
    | APIKey         // APIKeyException: missing, invalid or expired key
    | QuotaExceeded  // QuoteExceededException: API quota exceeded
    | Parse          // ParseException: unusable response
    | Configuration  // ConfigurationException: invalid setup
    | Timeout        // TimeoutException: request timed out

  /** A thrown `TrailerException`: which subclass, and its message (the cause is not kept). */
  datatype TrailerException = TrailerException(kind: ExceptionKind, message: string)
}

/** Failure-carrying values, and the exceptions the authenticator raises. */
module Outcomes {

  datatype Option<+T> = None | Some(value: T)

  /** A value or the exception that took its place. */
  datatype Result<+T> = Success(value: T) | Failure(error: Error)

  /** The completion of a void method: it returned, or it threw. */
  datatype Outcome = Pass | Fail(error: Error)

  /** The exceptions raised by the authenticator and by the objects it uses. */
  datatype Error =
    | ObjectDisposed(objectName: string)
      // SafeguardDotNetException for a connection failure, naming the base URL and the transport's message
    | ConnectionFailed(baseUrl: string, message: string)
      // SafeguardDotNetException carrying the HTTP status and the body of a rejected token exchange
    | ExchangeRejected(statusCode: int, content: string)
      // whatever a concrete login flow throws while obtaining a broker token
    | LoginFailed(message: string)
}

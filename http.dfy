/** Replies of the JSON API: an operation either succeeds with a value or
    answers with one of the error statuses the controllers use. */
module Http {

  datatype Option<+T> = None | Some(value: T)

  /** The reasons an endpoint refuses a request, one per distinct reply. */
  datatype Error =
    | ValidationFailed    // 422, produced by `$request->validate(...)`
    | InvalidCredentials  // 401 "Invalid credentials"
    | EmailNotVerified    // 403 "Email not verified"
    | NotFound            // 404 "User not found" / "To-do not found"
    | InvalidOtp          // 400 "Invalid OTP"
    | OtpExpired          // 400 "OTP has expired"
    | ServerError         // 500, an exception the controller does not catch

  /** The HTTP status code that goes with each refusal. */
  function StatusCode(e: Error): (code: nat)
    ensures 400 <= code < 600
    ensures code == 400 <==> e == InvalidOtp || e == OtpExpired
    ensures code == 500 <==> e == ServerError
  {
    match e
    case ValidationFailed => 422
    case InvalidCredentials => 401
    case EmailNotVerified => 403
    case NotFound => 404
    case InvalidOtp => 400
    case OtpExpired => 400
    case ServerError => 500
  }

  datatype Result<+T> = Ok(value: T) | Err(error: Error)

  /** The characters PHP's `trim` removes. */
  predicate TrimmedAway(c: char) {
    c == ' ' || c == '\t' || c == '\n' || c == '\r' || c == '\0' || c as int == 0x0B
  }

  /** A string Laravel's `required` rule refuses: it trims to "". The
      middleware that trims request strings leaves passwords alone, so a
      password made of spaces reaches the rule as it is and fails it. */
  predicate Blank(s: string) {
    forall i :: 0 <= i < |s| ==> TrimmedAway(s[i])
  }
}

/** The web variant of code issue and password reset. Replies are redirects;
    the model keeps only which one is given. The submitted code need only be
    numeric, and it is compared loosely, in one check combined with the
    expiry. */
module OtpPasswordController {
  import opened Http
  import opened OtpCodes
  import opened Accounts
  import opened Store

  datatype WebReply =
    | ValidationErrors       // redirect back with the validator's errors
    | OtpSent                // redirect to `password.request` with a status
    | InvalidOrExpiredOtp    // redirect to `password.request` with one error
    | PasswordWasReset       // redirect to `login` with a status

  predicate ResetRulesHold(users: map<UserId, User>, email: string, otp: Submitted, password: string, confirmation: string) {
    |email| >= 1 && EmailTaken(users, email) && IsNumericInput(otp) && !Blank(password) && |password| >= 8 && password == confirmation
  }

  /** `sendOtp`: a fresh code and expiry overwrite the slot before the code
      is mailed; `code` is what the mail carries to the user. */
  method SendOtp(db: Database, email: string, now: Instant) returns (reply: WebReply, code: nat)
    requires db.Valid()
    modifies db
    ensures db.Valid()
    ensures reply == ValidationErrors <==> |email| == 0 || !EmailTaken(old(db.users), email)
    ensures reply == ValidationErrors ==> unchanged(db)
    ensures reply != ValidationErrors ==>
      var id := IdOf(old(db.users), email);
      && reply == OtpSent
      && InCodeRange(code)
      && db.users == old(db.users)[id := IssueOtp(old(db.users)[id], code, now)]
      && db.outbox == old(db.outbox) + [Mail(email, code)]
    ensures db.tokens == old(db.tokens) && db.todos == old(db.todos)
  {
    var found := db.FindByEmail(email);
    if |email| == 0 || found.None? {
      return ValidationErrors, 0;
    }
    var id := found.value;
    var otp: nat :| MinCode <= otp <= MaxCode;
    db.SaveUser(id, IssueOtp(db.users[id], otp, now));
    db.outbox := db.outbox + [Mail(email, otp)];
    reply, code := OtpSent, otp;
  }

  /** `reset`: one combined refusal for a code that differs under `!=` or
      whose expiry is strictly before now; otherwise the new hash is stored
      and the slot cleared. With no code pending, the integer 0 gets through
      (`Accounts.EmptySlotAcceptsZero`), with `gt(null)` read as Carbon 2
      defines it. */
  method Reset(db: Database, email: string, otp: Submitted, password: string, confirmation: string, now: Instant)
    returns (reply: WebReply)
    requires db.Valid()
    modifies db
    ensures db.Valid()
    ensures reply == ValidationErrors <==> !ResetRulesHold(old(db.users), email, otp, password, confirmation)
    ensures reply != PasswordWasReset ==> unchanged(db)
    ensures ResetRulesHold(old(db.users), email, otp, password, confirmation) ==>
      var id := IdOf(old(db.users), email);
      && (reply == PasswordWasReset <==> LooseOtpAccepted(old(db.users)[id], otp, now))
      && (reply != PasswordWasReset ==> reply == InvalidOrExpiredOtp)
      && (reply == PasswordWasReset ==> db.users == old(db.users)[id := Accounts.ResetPassword(old(db.users)[id], password)])
    ensures db.tokens == old(db.tokens) && db.todos == old(db.todos) && db.outbox == old(db.outbox)
  {
    var found := db.FindByEmail(email);
    if !(|email| >= 1 && found.Some? && IsNumericInput(otp) && !Blank(password) && |password| >= 8 && password == confirmation) {
      return ValidationErrors;
    }
    var id := found.value;
    if !LooseOtpAccepted(db.users[id], otp, now) {
      return InvalidOrExpiredOtp;
    }
    db.SaveUser(id, Accounts.ResetPassword(db.users[id], password));
    reply := PasswordWasReset;
  }
}

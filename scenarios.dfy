/** Sequences of requests, proved from the handlers' contracts alone. */
module Scenarios {
  import opened Http
  import opened OtpCodes
  import opened Accounts
  import opened Store
  import AuthController
  import OtpPasswordController

  /** A new account cannot log in (403) until the mailed code verifies it;
      verifying with that code within ten minutes succeeds, and login then
      succeeds. Replaying the code afterwards is "Invalid OTP". */
  method RegisterVerifyLogin(db: Database, name: string, email: string, password: string, now: Instant, later: Instant)
    returns (early: Result<AuthController.Session>, verified: Result<AuthController.Session>,
             afterwards: Result<AuthController.Session>, replay: Result<AuthController.Session>)
    requires db.Valid()
    requires AuthController.RegisterRulesHold(name, email, password, password)
    requires !EmailTaken(db.users, email)
    requires now <= later <= now + OtpLifetime
    modifies db
    ensures early == Err(EmailNotVerified)
    ensures verified.Ok? && afterwards.Ok?
    ensures replay == Err(InvalidOtp)
  {
    var reg := AuthController.Register(db, name, email, password, password, now);
    var id, code := reg.value.user, reg.value.otp;
    IdOfIsHolder(db.users, email, id);
    early := AuthController.Login(db, email, password);

    IssuedCodeWindow(NewUser(name, email, password), code, now, later);
    verified := AuthController.VerifyEmail(db, email, Text(Decimal(code)), later);
    IdOfIsHolder(db.users, email, id);
    assert Matches(password, db.users[id].password);
    afterwards := AuthController.Login(db, email, password);

    ConsumedCodeCannotBeReplayed(db.users[id], password, Text(Decimal(code)), later, later);
    CodeHasSixDigits(code);
    replay := AuthController.VerifyEmail(db, email, Text(Decimal(code)), later);
  }

  /** Asking twice for a code leaves only the second valid: when the two
      draws differ, a reset with the first is "Invalid OTP" and changes
      nothing, and a reset with the second then succeeds. */
  method ResendInvalidatesOldCode(db: Database, email: string, password: string, now: Instant)
    returns (firstCode: nat, secondCode: nat, withFirst: Result<()>, withSecond: Result<()>)
    requires db.Valid() && |email| >= 1 && EmailTaken(db.users, email)
    requires !Blank(password) && |password| >= 8
    modifies db
    ensures firstCode != secondCode ==> withFirst == Err(InvalidOtp) && withSecond.Ok?
    ensures firstCode == secondCode ==> withFirst.Ok? && withSecond == Err(InvalidOtp)
  {
    ghost var id := IdOf(db.users, email);
    ghost var u := db.users[id];
    var first := AuthController.SendOtp(db, email, now);
    IdOfIsHolder(db.users, email, id);
    var second := AuthController.SendOtp(db, email, now);
    IdOfIsHolder(db.users, email, id);
    assert db.users[id] == IssueOtp(IssueOtp(u, first.value, now), second.value, now);
    CodeHasSixDigits(first.value);
    CodeHasSixDigits(second.value);
    if first.value != second.value {
      OnlyNewestCodeMatches(u, first.value, second.value, now, now, now);
    }
    IssuedCodeWindow(IssueOtp(u, first.value, now), second.value, now, now);
    withFirst := AuthController.ResetPassword(db, email, Text(Decimal(first.value)), password, password, now);
    IdOfIsHolder(db.users, email, id);
    withSecond := AuthController.ResetPassword(db, email, Text(Decimal(second.value)), password, password, now);
    firstCode, secondCode := first.value, second.value;
  }

  /** The web reset accepts the mailed code with a leading zero added. */
  method WebResetAcceptsLeadingZero(db: Database, email: string, password: string, now: Instant)
    returns (reply: OtpPasswordController.WebReply)
    requires db.Valid() && |email| >= 1 && EmailTaken(db.users, email)
    requires !Blank(password) && |password| >= 8
    modifies db
    ensures reply == OtpPasswordController.PasswordWasReset
  {
    ghost var id := IdOf(db.users, email);
    var sent, code := OtpPasswordController.SendOtp(db, email, now);
    IdOfIsHolder(db.users, email, id);
    LooseAcceptsLeadingZero(code);
    var submitted := Text("0" + Decimal(code));
    LooseOtpMeaning(db.users[id], submitted, now);
    reply := OtpPasswordController.Reset(db, email, submitted, password, password, now);
  }

  /** Once an account is verified its slot is empty, and the web reset then
      takes the integer 0 as the code: under Carbon 2, where `gt(null)` is
      false, anyone who knows the email can set a new password. */
  method ResetWithoutCodeAfterVerification(db: Database, email: string, code: nat, password: string, now: Instant)
    returns (verified: Result<AuthController.Session>, reply: OtpPasswordController.WebReply)
    requires db.Valid() && |email| >= 1 && EmailTaken(db.users, email)
    requires !Blank(password) && |password| >= 8
    modifies db
    ensures verified.Ok? ==> reply == OtpPasswordController.PasswordWasReset
  {
    ghost var id := IdOf(db.users, email);
    IdOfIsHolder(db.users, email, id);
    verified := AuthController.VerifyEmail(db, email, Text(Decimal(code)), now);
    IdOfIsHolder(db.users, email, id);
    if verified.Ok? {
      EmptySlotAcceptsZero(db.users[id], now);
    }
    reply := OtpPasswordController.Reset(db, email, Number(0), password, password, now);
  }

  /** `deleteAccount` with another user's email deletes the caller, not the
      owner of that email. */
  method DeleteAccountIgnoresSubmittedEmail(db: Database, token: TokenId, email: string)
    returns (r: Result<()>)
    requires db.Valid() && db.Resolve(token).Some?
    requires |email| >= 1 && EmailTaken(db.users, email)
    requires db.users[IdOf(db.users, email)].email != db.users[db.tokens[token]].email
    modifies db
    ensures r.Ok?
    ensures old(db.tokens[token]) !in db.users
    ensures IdOf(old(db.users), email) in db.users
  {
    ghost var holder, caller := IdOf(db.users, email), db.tokens[token];
    assert db.CurrentUser(Some(token)) == Some(caller) && holder != caller;
    var password := "any password";
    // Its first character is not whitespace, so the password is not blank.
    assert AuthController.KnownEmail(db.users, email) && password[0] == 'a';
    r := AuthController.DeleteAccount(db, Some(token), email, password);
  }

  /** Logging out on one device leaves the sessions of the others. */
  method LogoutKeepsOtherSessions(db: Database, current: TokenId, other: TokenId)
    requires db.Valid() && db.Resolve(current).Some? && db.Resolve(other).Some? && current != other
    modifies db
    ensures db.Resolve(current).None?
    ensures db.Resolve(other) == old(db.Resolve(other))
  {
    AuthController.Logout(db, current);
  }
}

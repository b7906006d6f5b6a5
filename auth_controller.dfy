/** The JSON authentication endpoints: registration with an emailed code,
    login, code issue, password reset, email verification, logout and
    account deletion. Every handler validates first, then checks in a fixed
    order, and either refuses with the database untouched or applies its
    update. */
module AuthController {
  import opened Http
  import opened OtpCodes
  import opened Accounts
  import opened ToDoSchema
  import opened Store

  datatype Registration = Registration(user: UserId, token: TokenId, otp: nat)
  datatype Session = Session(user: UserId, token: TokenId)

  /** `required|string|max:255` on name and email, `required|min:8|confirmed`
      on the password; the email format rule is not modelled. */
  predicate RegisterRulesHold(name: string, email: string, password: string, confirmation: string) {
    && 1 <= |name| <= 255
    && 1 <= |email| <= 255
    && !Blank(password) && |password| >= 8 && password == confirmation
  }

  /** `auth()->attempt($credentials)` succeeds. */
  predicate CredentialsMatch(users: map<UserId, User>, email: string, password: string) {
    exists u :: u in users && users[u].email == email && Matches(password, users[u].password)
  }

  /** `email|exists:users,email`, as sendOtp, resetPassword, verifyEmail and
      deleteAccount require it. */
  predicate KnownEmail(users: map<UserId, User>, email: string) {
    |email| >= 1 && EmailTaken(users, email)
  }

  /** `digits:6` looks at the code's string form, whether it came as a
      string or as a JSON integer. */
  predicate ResetRulesHold(users: map<UserId, User>, email: string, otp: Submitted, password: string, confirmation: string) {
    KnownEmail(users, email) && SixDigits(PhpString(otp)) && !Blank(password) && |password| >= 8 && password == confirmation
  }

  predicate VerifyRulesHold(users: map<UserId, User>, email: string, otp: Submitted) {
    KnownEmail(users, email) && SixDigits(PhpString(otp))
  }

  /** `register`: a new unverified user holding a fresh code that expires
      ten minutes on, the code mailed to them, and a new token. */
  method Register(db: Database, name: string, email: string, password: string, confirmation: string, now: Instant)
    returns (r: Result<Registration>)
    requires db.Valid()
    modifies db
    ensures db.Valid()
    ensures r.Err? <==> !RegisterRulesHold(name, email, password, confirmation) || EmailTaken(old(db.users), email)
    ensures r.Err? ==> r.error == ValidationFailed && unchanged(db)
    ensures r.Ok? ==>
      && r.value.user !in old(db.users)
      && InCodeRange(r.value.otp)
      && db.users == old(db.users)[r.value.user := IssueOtp(NewUser(name, email, password), r.value.otp, now)]
      && r.value.token !in old(db.tokens)
      && db.tokens == old(db.tokens)[r.value.token := r.value.user]
      && db.todos == old(db.todos)
      && db.outbox == old(db.outbox) + [Mail(email, r.value.otp)]
  {
    var existing := db.FindByEmail(email);
    if !RegisterRulesHold(name, email, password, confirmation) || existing.Some? {
      return Err(ValidationFailed);
    }
    var id := db.nextUserId;
    db.users := db.users[id := NewUser(name, email, password)];
    db.nextUserId := id + 1;
    var code: nat :| MinCode <= code <= MaxCode;
    db.SaveUser(id, IssueOtp(db.users[id], code, now));
    db.outbox := db.outbox + [Mail(email, code)];
    var token := db.MintToken(id);
    r := Ok(Registration(id, token, code));
  }

  /** `login`: the credential check comes first (401), then the
      verification check (403); only a verified user gets a new token, and
      the user records are never changed. */
  method Login(db: Database, email: string, password: string) returns (r: Result<Session>)
    requires db.Valid()
    modifies db
    ensures db.Valid()
    ensures db.users == old(db.users) && db.todos == old(db.todos) && db.outbox == old(db.outbox)
    ensures r == Err(ValidationFailed) <==> |email| == 0 || Blank(password)
    ensures r == Err(InvalidCredentials) <==> |email| >= 1 && !Blank(password) && !CredentialsMatch(db.users, email, password)
    ensures r == Err(EmailNotVerified) <==>
      |email| >= 1 && !Blank(password) && CredentialsMatch(db.users, email, password)
      && !IsVerified(db.users[IdOf(db.users, email)])
    ensures r.Err? ==> r.error in {ValidationFailed, InvalidCredentials, EmailNotVerified} && unchanged(db)
    ensures r.Ok? ==>
      && r.value.user in db.users && db.users[r.value.user].email == email
      && Matches(password, db.users[r.value.user].password)
      && IsVerified(db.users[r.value.user])
      && r.value.token !in old(db.tokens)
      && db.tokens == old(db.tokens)[r.value.token := r.value.user]
  {
    if |email| == 0 || Blank(password) {
      return Err(ValidationFailed);
    }
    var found := db.FindByEmail(email);
    if found.None? || !Matches(password, db.users[found.value].password) {
      return Err(InvalidCredentials);
    }
    var id := found.value;
    if !IsVerified(db.users[id]) {
      return Err(EmailNotVerified);
    }
    var token := db.MintToken(id);
    r := Ok(Session(id, token));
  }

  /** `sendOtp`: a fresh code and expiry overwrite the slot, and are stored
      before the code is mailed. */
  method SendOtp(db: Database, email: string, now: Instant) returns (r: Result<nat>)
    requires db.Valid()
    modifies db
    ensures db.Valid()
    ensures r.Err? <==> !KnownEmail(old(db.users), email)
    ensures r.Err? ==> r.error == ValidationFailed && unchanged(db)
    ensures r.Ok? ==>
      var id := IdOf(old(db.users), email);
      && InCodeRange(r.value)
      && db.users == old(db.users)[id := IssueOtp(old(db.users)[id], r.value, now)]
      && db.outbox == old(db.outbox) + [Mail(email, r.value)]
    ensures db.tokens == old(db.tokens) && db.todos == old(db.todos)
  {
    var found := db.FindByEmail(email);
    if |email| == 0 || found.None? {
      return Err(ValidationFailed);
    }
    var id := found.value;
    var code: nat :| MinCode <= code <= MaxCode;
    db.SaveUser(id, IssueOtp(db.users[id], code, now));
    db.outbox := db.outbox + [Mail(email, code)];
    r := Ok(code);
  }

  /** `resetPassword`: validation, then "Invalid OTP", then "OTP has
      expired"; only then the new hash is stored and the slot cleared. No
      token is minted. */
  method ResetPassword(db: Database, email: string, otp: Submitted, password: string, confirmation: string, now: Instant)
    returns (r: Result<()>)
    requires db.Valid()
    modifies db
    ensures db.Valid()
    ensures r == Err(ValidationFailed) <==> !ResetRulesHold(old(db.users), email, otp, password, confirmation)
    ensures r.Err? ==> unchanged(db)
    ensures ResetRulesHold(old(db.users), email, otp, password, confirmation) ==>
      var id := IdOf(old(db.users), email);
      && (r.Ok? <==> CheckOtp(old(db.users)[id], PhpString(otp), now) == Accepted)
      && (r.Err? ==> CheckOtp(old(db.users)[id], PhpString(otp), now) == Rejected(r.error))
      && (r.Ok? ==> db.users == old(db.users)[id := Accounts.ResetPassword(old(db.users)[id], password)])
    ensures db.tokens == old(db.tokens) && db.todos == old(db.todos) && db.outbox == old(db.outbox)
  {
    var found := db.FindByEmail(email);
    if !(|email| >= 1 && found.Some? && SixDigits(PhpString(otp)) && !Blank(password) && |password| >= 8 && password == confirmation) {
      return Err(ValidationFailed);
    }
    var id := found.value;
    var verdict := CheckOtp(db.users[id], PhpString(otp), now);
    if verdict.Rejected? {
      return Err(verdict.reason);
    }
    db.SaveUser(id, Accounts.ResetPassword(db.users[id], password));
    r := Ok(());
  }

  /** `verifyEmail`: validation, then "Invalid OTP", then "OTP has expired";
      only then the verification instant is set, the slot cleared, and a
      new token minted. */
  method VerifyEmail(db: Database, email: string, otp: Submitted, now: Instant) returns (r: Result<Session>)
    requires db.Valid()
    modifies db
    ensures db.Valid()
    ensures r == Err(ValidationFailed) <==> !VerifyRulesHold(old(db.users), email, otp)
    ensures r.Err? ==> unchanged(db)
    ensures VerifyRulesHold(old(db.users), email, otp) ==>
      var id := IdOf(old(db.users), email);
      && (r.Ok? <==> CheckOtp(old(db.users)[id], PhpString(otp), now) == Accepted)
      && (r.Err? ==> CheckOtp(old(db.users)[id], PhpString(otp), now) == Rejected(r.error))
      && (r.Ok? ==>
            && r.value.user == id
            && db.users == old(db.users)[id := MarkVerified(old(db.users)[id], now)]
            && r.value.token !in old(db.tokens)
            && db.tokens == old(db.tokens)[r.value.token := id])
    ensures db.todos == old(db.todos) && db.outbox == old(db.outbox)
  {
    var found := db.FindByEmail(email);
    if !(|email| >= 1 && found.Some? && SixDigits(PhpString(otp))) {
      return Err(ValidationFailed);
    }
    var id := found.value;
    var verdict := CheckOtp(db.users[id], PhpString(otp), now);
    if verdict.Rejected? {
      return Err(verdict.reason);
    }
    db.SaveUser(id, MarkVerified(db.users[id], now));
    var token := db.MintToken(id);
    r := Ok(Session(id, token));
  }

  /** `logout`: behind `auth:sanctum`, it deletes the token the request
      carried and no other. */
  method Logout(db: Database, token: TokenId)
    requires db.Valid() && db.Resolve(token).Some?
    modifies db
    ensures db.Valid()
    ensures db.tokens == old(db.tokens) - {token}
    ensures db.users == old(db.users) && db.todos == old(db.todos) && db.outbox == old(db.outbox)
  {
    db.tokens := db.tokens - {token};
  }

  /** `deleteAccount`: the submitted email must belong to some user and a
      password must be given, but neither is compared with the user the
      bearer token resolves to; that user is deleted, and with them their
      to-dos. Their tokens stay stored but no longer resolve. */
  method DeleteAccount(db: Database, bearer: Option<TokenId>, email: string, password: string)
    returns (r: Result<()>)
    requires db.Valid()
    modifies db
    ensures db.Valid()
    ensures r == Err(ValidationFailed) <==> !KnownEmail(old(db.users), email) || Blank(password)
    ensures r == Err(NotFound) <==>
      KnownEmail(old(db.users), email) && !Blank(password) && old(db.CurrentUser(bearer)).None?
    ensures r.Err? ==> r.error in {ValidationFailed, NotFound} && unchanged(db)
    ensures r.Ok? ==>
      var caller := old(db.CurrentUser(bearer)).value;
      && db.users == old(db.users) - {caller}
      && db.todos == CascadeDelete(old(db.todos), caller)
      && db.tokens == old(db.tokens)
    ensures db.outbox == old(db.outbox)
  {
    var found := db.FindByEmail(email);
    if |email| == 0 || found.None? || Blank(password) {
      return Err(ValidationFailed);
    }
    var caller := db.CurrentUser(bearer);
    if caller.None? {
      return Err(NotFound);
    }
    CascadeKeepsForeignKey(db.todos, db.users.Keys, caller.value);
    db.users := db.users - {caller.value};
    db.todos := CascadeDelete(db.todos, caller.value);
    r := Ok(());
  }
}

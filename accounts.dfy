/** A user record and the pure steps the authentication controllers take on
    it: issuing a code into the one OTP slot, checking a submitted code, and
    consuming the slot on a password reset or an email verification. */
module Accounts {
  import opened Http
  import opened OtpCodes

  type UserId = nat

  /** Timestamps are whole seconds. */
  type Instant = int

  /** `addMinutes(10)`. */
  const OtpLifetime: int := 600

  /** An opaque password hash. `Hash::make` and `bcrypt` are modelled as an
      injective function; the salt is not modelled. */
  datatype Digest = Digest(secret: string)

  function Hash(password: string): Digest {
    Digest(password)
  }

  /** `Hash::check`, as `auth()->attempt` uses it. */
  predicate Matches(password: string, d: Digest) {
    Hash(password) == d
  }

  /** A row of the `users` table as the controllers see it. */
  datatype User = User(
    name: string,
    email: string,
    password: Digest,
    emailVerifiedAt: Option<Instant>,
    otp: Option<nat>,
    otpExpiresAt: Option<Instant>)

  /** The slot holds a code and its expiry together or neither, and a held
      code is one `rand(100000, 999999)` can draw. */
  predicate SlotConsistent(u: User) {
    && (u.otp.Some? <==> u.otpExpiresAt.Some?)
    && (u.otp.Some? ==> InCodeRange(u.otp.value))
  }

  /** `hasVerifiedEmail()`. */
  predicate IsVerified(u: User) {
    u.emailVerifiedAt.Some?
  }

  /** `User::create` at registration: nothing verified, nothing pending. */
  function NewUser(name: string, email: string, password: string): (u: User)
    ensures !IsVerified(u) && u.otp.None? && SlotConsistent(u)
    ensures Matches(password, u.password)
  {
    User(name, email, Hash(password), None, None, None)
  }

  /** `$user->update(['otp' => $otp, 'otp_expires_at' => now + 10 min])`:
      the new pair replaces whatever was pending. */
  function IssueOtp(u: User, code: nat, now: Instant): (r: User)
    requires InCodeRange(code)
    ensures SlotConsistent(r)
    ensures r.otp == Some(code) && r.otpExpiresAt == Some(now + OtpLifetime)
    ensures r.(otp := u.otp, otpExpiresAt := u.otpExpiresAt) == u
  {
    u.(otp := Some(code), otpExpiresAt := Some(now + OtpLifetime))
  }

  /** `Carbon::parse($user->otp_expires_at)->isPast()` in the API controller
      and `Carbon::now()->gt($user->otp_expires_at)` in the web controller
      both hold exactly when a set expiry instant lies strictly before now.
      Only the web controller reaches the test with a null expiry, since the
      API one stops at `!$user->otp` first; there `gt(null)` is read as
      Carbon 2 defines it, comparing now with the current instant, which is
      false. (Carbon 3 throws on null, making that request a 500.) */
  predicate IsPast(expiresAt: Option<Instant>, now: Instant) {
    expiresAt.Some? && expiresAt.value < now
  }

  /** The outcome of the API controller's two OTP checks. */
  datatype OtpVerdict = Accepted | Rejected(reason: Error)

  /** The API controller's checks, in source order: first the code, then the
      expiry. */
  function CheckOtp(u: User, submitted: string, now: Instant): (v: OtpVerdict)
    ensures v.Rejected? ==> v.reason in {InvalidOtp, OtpExpired} && StatusCode(v.reason) == 400
  {
    if !StrictMatch(u.otp, submitted) then Rejected(InvalidOtp)
    else if IsPast(u.otpExpiresAt, now) then Rejected(OtpExpired)
    else Accepted
  }

  /** The web controller's single combined check `otp != ... || now > expiry`,
      true when the code is let through. */
  predicate LooseOtpAccepted(u: User, submitted: Submitted, now: Instant) {
    LooseMatch(u.otp, submitted) && !IsPast(u.otpExpiresAt, now)
  }

  /** The web check as evidently intended: only a pending code, by value,
      while its expiry has not passed. */
  predicate IntendedOtpAccepted(u: User, submitted: Submitted, now: Instant) {
    u.otp.Some? && LooseOtpAccepted(u, submitted, now)
  }

  /** What a successful password reset writes: a new hash and an empty slot. */
  function ResetPassword(u: User, password: string): (r: User)
    ensures Matches(password, r.password)
    ensures r.otp.None? && r.otpExpiresAt.None? && SlotConsistent(r)
    ensures r.(password := u.password, otp := u.otp, otpExpiresAt := u.otpExpiresAt) == u
  {
    u.(password := Hash(password), otp := None, otpExpiresAt := None)
  }

  /** What a successful email verification writes: the verification instant
      and an empty slot. */
  function MarkVerified(u: User, now: Instant): (r: User)
    ensures IsVerified(r) && r.emailVerifiedAt == Some(now)
    ensures r.otp.None? && r.otpExpiresAt.None? && SlotConsistent(r)
    ensures r.(emailVerifiedAt := u.emailVerifiedAt, otp := u.otp, otpExpiresAt := u.otpExpiresAt) == u
  {
    u.(emailVerifiedAt := Some(now), otp := None, otpExpiresAt := None)
  }

  /** On a well-formed submission the API check accepts exactly the pending
      code while its expiry has not passed, answers "OTP has expired" only
      for the right code, and "Invalid OTP" for every other submission. */
  lemma CheckOtpMeaning(u: User, submitted: string, now: Instant)
    requires SlotConsistent(u) && SixDigits(submitted)
    ensures CheckOtp(u, submitted, now) == Accepted
        <==> u.otp == Some(Value(submitted)) && now <= u.otpExpiresAt.value
    ensures CheckOtp(u, submitted, now) == Rejected(OtpExpired)
        <==> u.otp == Some(Value(submitted)) && u.otpExpiresAt.value < now
    ensures CheckOtp(u, submitted, now) == Rejected(InvalidOtp)
        <==> u.otp != Some(Value(submitted))
  {
    StrictMatchMeaning(u.otp, submitted);
  }

  /** The web check accepts the numeric submissions whose value is the
      pending code while its expiry has not passed, and also, when no code
      is pending, the integer 0. */
  lemma LooseOtpMeaning(u: User, submitted: Submitted, now: Instant)
    requires SlotConsistent(u) && IsNumericInput(submitted)
    ensures LooseOtpAccepted(u, submitted, now) <==>
      || (u.otp.Some? && u.otp.value == NumberOf(submitted) && now <= u.otpExpiresAt.value)
      || (u.otp.None? && submitted == Number(0))
  {
    LooseMatchMeaning(u.otp, submitted);
  }

  /** As written, the web check lets the integer 0 through whenever no code
      is pending. */
  lemma EmptySlotAcceptsZero(u: User, now: Instant)
    requires SlotConsistent(u) && u.otp.None?
    ensures LooseOtpAccepted(u, Number(0), now)
    ensures !IntendedOtpAccepted(u, Number(0), now)
  {
  }

  /** The intended check accepts exactly the pending code, by value, while
      its expiry has not passed; with no code pending it accepts nothing.
      Whenever a code is pending it agrees with the check as written. */
  lemma IntendedOtpMeaning(u: User, submitted: Submitted, now: Instant)
    requires SlotConsistent(u) && IsNumericInput(submitted)
    ensures IntendedOtpAccepted(u, submitted, now) <==>
      u.otp.Some? && u.otp.value == NumberOf(submitted) && now <= u.otpExpiresAt.value
    ensures u.otp.Some? ==> (IntendedOtpAccepted(u, submitted, now) <==> LooseOtpAccepted(u, submitted, now))
  {
    LooseOtpMeaning(u, submitted, now);
  }

  /** The code just issued, submitted as the mail shows it, passes `digits:6`
      and is accepted until and including its expiry instant, ten minutes on,
      and reported expired one second later. */
  lemma IssuedCodeWindow(u: User, code: nat, issuedAt: Instant, now: Instant)
    requires InCodeRange(code)
    ensures SixDigits(Decimal(code))
    ensures now <= issuedAt + OtpLifetime ==> CheckOtp(IssueOtp(u, code, issuedAt), Decimal(code), now) == Accepted
    ensures now > issuedAt + OtpLifetime ==> CheckOtp(IssueOtp(u, code, issuedAt), Decimal(code), now) == Rejected(OtpExpired)
  {
    CodeHasSixDigits(code);
    DecimalRoundTrip(code);
    CheckOtpMeaning(IssueOtp(u, code, issuedAt), Decimal(code), now);
  }

  /** Issuing twice leaves only the newest code: the earlier one, if it
      differs, is now an invalid code (never an expired one). */
  lemma OnlyNewestCodeMatches(u: User, first: nat, second: nat, t1: Instant, t2: Instant, now: Instant)
    requires InCodeRange(first) && InCodeRange(second) && first != second
    ensures CheckOtp(IssueOtp(IssueOtp(u, first, t1), second, t2), Decimal(first), now) == Rejected(InvalidOtp)
  {
    DecimalRoundTrip(first);
    CodeHasSixDigits(first);
    CheckOtpMeaning(IssueOtp(IssueOtp(u, first, t1), second, t2), Decimal(first), now);
  }

  /** After a reset or a verification the slot is empty. The API then
      answers "Invalid OTP" to every submission, the consumed code included.
      The web check as written refuses every numeric submission except the
      integer 0; the intended check refuses them all. */
  lemma ConsumedCodeCannotBeReplayed(u: User, password: string, submitted: Submitted, now: Instant, later: Instant)
    requires IsNumericInput(submitted)
    ensures CheckOtp(ResetPassword(u, password), PhpString(submitted), later) == Rejected(InvalidOtp)
    ensures CheckOtp(MarkVerified(u, now), PhpString(submitted), later) == Rejected(InvalidOtp)
    ensures LooseOtpAccepted(ResetPassword(u, password), submitted, later) <==> submitted == Number(0)
    ensures LooseOtpAccepted(MarkVerified(u, now), submitted, later) <==> submitted == Number(0)
    ensures !IntendedOtpAccepted(ResetPassword(u, password), submitted, later)
    ensures !IntendedOtpAccepted(MarkVerified(u, now), submitted, later)
  {
    LooseMatchMeaning(None, submitted);
  }
}

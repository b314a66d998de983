/**
 * Properties of the controller that relate several requests: a code is used at
 * most once, a pending code blocks login until it is consumed, a newer code from
 * a different draw makes the older one useless for resetPassword, and the
 * register / verify / login round trip.
 */
module AuthProperties {
  import opened Wrappers
  import opened Users
  import opened AuthSpec
  import Otp

  /** Once verifyOtp has accepted a code, the same code is refused by both code-checking handlers, at any later time. */
  lemma CodeIsSingleUse(s: Store, email: Email, code: string, now: int, later: int, salt: nat)
    requires VerifyOtp(s, email, code, now).reply == Ok
    ensures VerifyOtp(VerifyOtp(s, email, code, now).store, email, code, later).reply == InvalidOrExpiredOtp
    ensures ResetPassword(VerifyOtp(s, email, code, now).store, email, code, salt, later).reply == InvalidOrExpiredOtp
  {
  }

  /** Once resetPassword has accepted a code, the same code is refused by both code-checking handlers, at any later time. */
  lemma ResetCodeIsSingleUse(s: Store, email: Email, code: string, salt: nat, now: int, later: int, salt2: nat)
    requires ResetPassword(s, email, code, salt, now).reply == Ok
    ensures VerifyOtp(ResetPassword(s, email, code, salt, now).store, email, code, later).reply == InvalidOrExpiredOtp
    ensures ResetPassword(ResetPassword(s, email, code, salt, now).store, email, code, salt2, later).reply == InvalidOrExpiredOtp
  {
  }

  /** A code presented after its expiry instant is refused, even when it is the stored one. */
  lemma ExpiredCodeRefused(s: Store, email: Email, code: string, now: int, salt: nat)
    requires email in s && s[email].otpExpires.Some? && s[email].otpExpires.value < now
    ensures VerifyOtp(s, email, code, now) == Outcome(InvalidOrExpiredOtp, s, None)
    ensures ResetPassword(s, email, code, salt, now) == Outcome(InvalidOrExpiredOtp, s, None)
  {
  }

  /** The comparison is strict: the stored code presented exactly at its expiry instant is still accepted. */
  lemma CodeAcceptedAtExpiryInstant(s: Store, email: Email, code: string, now: int, salt: nat)
    requires email in s && s[email].otp == Some(code) && s[email].otpExpires == Some(now)
    ensures VerifyOtp(s, email, code, now).reply == Ok
    ensures ResetPassword(s, email, code, salt, now).reply == Ok
  {
  }

  /** While a code is pending, login is refused whatever password is given. */
  lemma PendingBlocksLogin(s: Store, email: Email, password: string)
    requires email in s && Pending(s[email])
    ensures !Login(s, email, password).Token?
  {
  }

  /** Right after a successful forgotPassword, login for that email is refused whatever password is given. */
  lemma ForgotPasswordBlocksLogin(s: Store, email: Email, draw: nat, now: int, password: string)
    requires draw < Otp.OtpRange
    requires ForgotPassword(s, email, draw, now).reply == Ok
    ensures !Login(ForgotPassword(s, email, draw, now).store, email, password).Token?
  {
  }

  /** Request `q`, answered `reply`, consumed the code pending for `email`. */
  predicate Consumes(q: Request, reply: Reply, email: Email) {
    (q.VerifyOtpRequest? || q.ResetPasswordRequest?) && q.email == email && reply == Ok
  }

  /**
   * A pending code stays pending, through any sequence of requests (for this
   * email or any other), until a verifyOtp or resetPassword for this email
   * succeeds.
   */
  lemma {:induction false} PendingUntilConsumed(s: Store, qs: seq<Request>, email: Email)
    requires forall i :: 0 <= i < |qs| ==> ValidRequest(qs[i])
    requires email in s && Pending(s[email])
    requires forall i :: 0 <= i < |qs| ==> !Consumes(qs[i], Run(s, qs).replies[i], email)
    ensures email in Run(s, qs).store && Pending(Run(s, qs).store[email])
    decreases |qs|
  {
    if qs != [] {
      var first := Step(s, qs[0]);
      assert !Consumes(qs[0], first.reply, email) by {
        assert Run(s, qs).replies[0] == first.reply;
      }
      assert email in first.store && Pending(first.store[email]);
      var tail := qs[1..];
      forall i | 0 <= i < |tail|
        ensures !Consumes(tail[i], Run(first.store, tail).replies[i], email)
      {
        assert Run(s, qs).replies[i + 1] == Run(first.store, tail).replies[i];
        assert tail[i] == qs[i + 1];
      }
      PendingUntilConsumed(first.store, tail, email);
    }
  }

  /**
   * After a successful forgotPassword, login for that email is refused, whatever
   * password and whatever requests follow, until a verifyOtp or resetPassword
   * for the email succeeds.
   */
  lemma LoginRefusedUntilReset(s: Store, email: Email, draw: nat, now: int, qs: seq<Request>, password: string)
    requires draw < Otp.OtpRange
    requires ForgotPassword(s, email, draw, now).reply == Ok
    requires forall i :: 0 <= i < |qs| ==> ValidRequest(qs[i])
    requires forall i :: 0 <= i < |qs| ==>
      !Consumes(qs[i], Run(ForgotPassword(s, email, draw, now).store, qs).replies[i], email)
    ensures !Login(Run(ForgotPassword(s, email, draw, now).store, qs).store, email, password).Token?
  {
    PendingUntilConsumed(ForgotPassword(s, email, draw, now).store, qs, email);
  }

  /**
   * After a successful resetPassword the password is "123": it logs in with a
   * token for the account, and every other password, the previous one included,
   * is refused as invalid credentials.
   */
  lemma ResetInstallsLiteralPassword(s: Store, email: Email, code: string, salt: nat, now: int, other: string)
    requires ResetPassword(s, email, code, salt, now).reply == Ok
    requires other != ResetPasswordLiteral
    ensures Login(ResetPassword(s, email, code, salt, now).store, email, ResetPasswordLiteral)
      == Token(SessionToken(s[email].id))
    ensures Login(ResetPassword(s, email, code, salt, now).store, email, other) == InvalidCredentials
  {
  }

  /**
   * A forgotPassword that drew a different code makes the code drawn before it
   * useless: resetting with the older code is refused and changes nothing.
   */
  lemma StaleCodeRefusedAfterForgotPassword(
    s: Store, email: Email, oldDraw: nat, newDraw: nat, now: int, later: int, salt: nat)
    requires oldDraw < Otp.OtpRange && newDraw < Otp.OtpRange && oldDraw != newDraw
    requires ForgotPassword(s, email, newDraw, now).reply == Ok
    ensures var t := ForgotPassword(s, email, newDraw, now).store;
      ResetPassword(t, email, Otp.GenerateOtp(oldDraw), salt, later) == Outcome(InvalidOrExpiredOtp, t, None)
  {
    Otp.GenerateOtpInjective(oldDraw, newDraw);
  }

  /**
   * The register / verify / login round trip: on an email not yet registered,
   * login is refused while the mailed code is pending, a wrong code is refused
   * with nothing changed, the mailed code presented within 6,000,000 ms is
   * accepted, and then login with the registered password yields a token for the
   * new account's id.
   */
  lemma RegisterVerifyLogin(
    s: Store, email: Email, password: string, draw: nat, salt: nat, id: UserId,
    now: int, wrong: string, later: int)
    requires email !in s && email != ""
    requires draw < Otp.OtpRange
    requires wrong != Otp.GenerateOtp(draw)
    requires now <= later <= now + OtpLifetimeMs
    ensures var r := Register(s, email, password, draw, salt, id, now);
      && r.reply == Ok
      && r.mail == Some(OtpMail(email, RegisterSubject, Otp.GenerateOtp(draw)))
      && Login(r.store, email, password) == OtpPending
      && VerifyOtp(r.store, email, wrong, later) == Outcome(InvalidOrExpiredOtp, r.store, None)
      && VerifyOtp(r.store, email, Otp.GenerateOtp(draw), later).reply == Ok
      && Login(VerifyOtp(r.store, email, Otp.GenerateOtp(draw), later).store, email, password)
         == Token(SessionToken(id))
  {
  }

  /** The registration code expires exactly OtpLifetimeMs (100 minutes) after registering: one millisecond later it is refused. */
  lemma RegistrationCodeExpires(s: Store, email: Email, password: string, draw: nat, salt: nat, id: UserId, now: int, later: int)
    requires email !in s && email != ""
    requires draw < Otp.OtpRange
    requires later > now + 100 * 60 * 1000
    ensures var r := Register(s, email, password, draw, salt, id, now);
      VerifyOtp(r.store, email, Otp.GenerateOtp(draw), later) == Outcome(InvalidOrExpiredOtp, r.store, None)
  {
  }
}

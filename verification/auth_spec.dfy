/**
 * The five handlers of the authentication controller as transitions of the user
 * collection: each looks up one record by email, checks its preconditions, and
 * either rejects with the collection untouched or rewrites that one record.
 *
 * `Date.now()` is the parameter `now` (milliseconds), `Math.random()` the draw,
 * the bcrypt salt the parameter `salt`, and the id the database gives a new
 * document the parameter `id`. The mail each handler sends is returned beside
 * the new collection; sending never changes the collection.
 */
module AuthSpec {
  import opened Wrappers
  import opened Credentials
  import opened Users
  import Otp

  /** The offset added to `Date.now()`: 100 * 60 * 1000 ms is 100 minutes, not the 10 its comment claims. */
  const OtpLifetimeMs: int := 100 * 60 * 1000

  /** The password `resetPassword` installs, whatever the request contains. */
  const ResetPasswordLiteral: string := "123"

  const RegisterSubject: string := "Your OTP Code"
  const ResetSubject: string := "Password Reset OTP"

  /** The signed JWT, opaque but for its one claim `userId`. */
  datatype SessionToken = SessionToken(userId: UserId)

  /**
   * The HTTP replies: `Ok` is any 200 text reply, `Token` the 200 JSON reply of
   * login, `ServerError` the 500 reply of a failed save, the rest the 400 replies.
   */
  datatype Reply =
    | Ok
    | AlreadyExists
    | NotFound
    | InvalidCredentials
    | InvalidOrExpiredOtp
    | OtpPending
    | ServerError
    | Token(token: SessionToken)

  datatype Mail = Mail(to: Email, subject: string, text: string)

  /** What one handler answers, the collection it leaves, and the mail it sends (if any). */
  datatype Outcome = Outcome(reply: Reply, store: Store, mail: Option<Mail>)

  function OtpMail(to: Email, subject: string, code: string): Mail {
    Mail(to, subject, "Your OTP is " + code)
  }

  /** The mail of an outcome as a list, to append to a mail log. */
  function Sent(mail: Option<Mail>): seq<Mail> {
    if mail.Some? then [mail.value] else []
  }

  /**
   * `user.otpExpires < Date.now()`; JavaScript compares a null expiry as 0. In a
   * well-formed collection the expiry is null only together with the code, and
   * then the code test `user.otp !== otp` refuses first.
   */
  predicate Expired(expires: Option<int>, now: int) {
    (if expires.Some? then expires.value else 0) < now
  }

  /** The negation of the guard `user.otp !== otp || user.otpExpires < Date.now()` of verifyOtp and resetPassword. */
  predicate OtpAccepted(u: UserRecord, code: string, now: int) {
    u.otp == Some(code) && !Expired(u.otpExpires, now)
  }

  /**
   * `register`: an email already in the collection is refused with nothing
   * changed; an empty email fails the schema's validation when the new record is
   * saved, so the reply is a server error, nothing is stored and no mail goes out
   * (the mail is sent only after the save); otherwise exactly one record is added,
   * holding the password's hash, a fresh code and an expiry 6,000,000 ms after
   * `now`, and the code is mailed.
   */
  function Register(s: Store, email: Email, password: string, draw: nat, salt: nat, id: UserId, now: int): (r: Outcome)
    requires draw < Otp.OtpRange
    ensures r.reply == AlreadyExists <==> email in s
    ensures r.reply == ServerError <==> email !in s && email == ""
    ensures r.reply == Ok <==> email !in s && email != ""
    ensures r.reply != Ok ==> r.store == s && r.mail == None
    ensures r.reply == Ok ==>
      && r.store.Keys == s.Keys + {email}
      && (forall e :: e in s ==> r.store[e] == s[e])
      && r.store[email].id == id
      && r.store[email].email == email
      && r.store[email].password == Hash(password, salt)
      && r.store[email].otp == Some(Otp.GenerateOtp(draw))
      && r.store[email].otpExpires == Some(now + 6_000_000)
      && r.mail == Some(OtpMail(email, RegisterSubject, Otp.GenerateOtp(draw)))
    ensures WellFormed(s) ==> WellFormed(r.store)
  {
    if email in s then
      Outcome(AlreadyExists, s, None)
    else
      var code := Otp.GenerateOtp(draw);
      var user := UserRecord(id, email, Hash(password, salt), Some(code), Some(now + OtpLifetimeMs));
      if !PassesRequired(user.email) then Outcome(ServerError, s, None)
      else Outcome(Ok, s[email := user], Some(OtpMail(email, RegisterSubject, code)))
  }

  /**
   * `verifyOtp`: succeeds exactly when the record exists, holds the supplied code
   * and its expiry is not before `now` (so a code presented at its expiry instant
   * is accepted); success clears the code and the expiry and nothing else, any
   * other outcome leaves the collection as it was.
   */
  function VerifyOtp(s: Store, email: Email, code: string, now: int): (r: Outcome)
    ensures r.reply == Ok || r.reply == NotFound || r.reply == InvalidOrExpiredOtp
    ensures r.reply == NotFound <==> email !in s
    ensures r.reply == Ok ==> email in s && s[email].otp == Some(code)
    ensures WellFormed(s) ==>
      (r.reply == Ok <==>
        email in s && s[email].otp == Some(code) && s[email].otpExpires.Some? && now <= s[email].otpExpires.value)
    ensures r.reply != Ok ==> r.store == s
    ensures r.reply == Ok ==>
      && r.store.Keys == s.Keys
      && (forall e :: e in s && e != email ==> r.store[e] == s[e])
      && r.store[email] == s[email].(otp := None, otpExpires := None)
    ensures r.mail == None
    ensures WellFormed(s) ==> WellFormed(r.store)
  {
    if email !in s then
      Outcome(NotFound, s, None)
    else if !OtpAccepted(s[email], code, now) then
      Outcome(InvalidOrExpiredOtp, s, None)
    else
      Outcome(Ok, s[email := s[email].(otp := None, otpExpires := None)], None)
  }

  /**
   * `login`: checks, in this order, that the record exists, that the password
   * matches and that no code is pending; a token for the record's id is issued
   * only when all three hold. The collection is never changed.
   */
  function Login(s: Store, email: Email, password: string): (r: Reply)
    ensures r == NotFound <==> email !in s
    ensures r == InvalidCredentials <==> email in s && !Matches(password, s[email].password)
    ensures r == OtpPending <==> email in s && Matches(password, s[email].password) && Pending(s[email])
    ensures r.Token? <==> email in s && Matches(password, s[email].password) && !Pending(s[email])
    ensures r.Token? ==> r.token == SessionToken(s[email].id)
  {
    if email !in s then NotFound
    else if !Matches(password, s[email].password) then InvalidCredentials
    else if s[email].otp.Some? then OtpPending
    else Token(SessionToken(s[email].id))
  }

  /**
   * `forgotPassword`: needs an existing record; overwrites whatever code and
   * expiry it had with a fresh code expiring 6,000,000 ms after `now`, keeps the
   * password, and mails the code.
   */
  function ForgotPassword(s: Store, email: Email, draw: nat, now: int): (r: Outcome)
    requires draw < Otp.OtpRange
    ensures r.reply == NotFound <==> email !in s
    ensures r.reply != NotFound ==> r.reply == Ok
    ensures r.reply == NotFound ==> r.store == s && r.mail == None
    ensures r.reply == Ok ==>
      && r.store.Keys == s.Keys
      && (forall e :: e in s && e != email ==> r.store[e] == s[e])
      && r.store[email] == s[email].(otp := Some(Otp.GenerateOtp(draw)), otpExpires := Some(now + 6_000_000))
      && r.mail == Some(OtpMail(email, ResetSubject, Otp.GenerateOtp(draw)))
    ensures WellFormed(s) ==> WellFormed(r.store)
  {
    if email !in s then
      Outcome(NotFound, s, None)
    else
      var code := Otp.GenerateOtp(draw);
      var user := s[email].(otp := Some(code), otpExpires := Some(now + OtpLifetimeMs));
      Outcome(Ok, s[email := user], Some(OtpMail(email, ResetSubject, code)))
  }

  /**
   * `resetPassword`: accepts under the same three conditions as verifyOtp; on
   * success the password becomes the hash of "123", whatever the request held,
   * and the code and expiry are cleared. Any other outcome changes nothing.
   */
  function ResetPassword(s: Store, email: Email, code: string, salt: nat, now: int): (r: Outcome)
    ensures r.reply == Ok || r.reply == NotFound || r.reply == InvalidOrExpiredOtp
    ensures r.reply == NotFound <==> email !in s
    ensures r.reply == Ok ==> email in s && s[email].otp == Some(code)
    ensures WellFormed(s) ==>
      (r.reply == Ok <==>
        email in s && s[email].otp == Some(code) && s[email].otpExpires.Some? && now <= s[email].otpExpires.value)
    ensures r.reply != Ok ==> r.store == s
    ensures r.reply == Ok ==>
      && r.store.Keys == s.Keys
      && (forall e :: e in s && e != email ==> r.store[e] == s[e])
      && r.store[email] == s[email].(password := Hash("123", salt), otp := None, otpExpires := None)
    ensures r.mail == None
    ensures WellFormed(s) ==> WellFormed(r.store)
  {
    if email !in s then
      Outcome(NotFound, s, None)
    else if !OtpAccepted(s[email], code, now) then
      Outcome(InvalidOrExpiredOtp, s, None)
    else
      var user := s[email].(password := Hash(ResetPasswordLiteral, salt));
      Outcome(Ok, s[email := user.(otp := None, otpExpires := None)], None)
  }

  /** One request to the controller, with the values the environment supplies for it. */
  datatype Request =
    | RegisterRequest(email: Email, password: string, draw: nat, salt: nat, id: UserId, now: int)
    | VerifyOtpRequest(email: Email, otp: string, now: int)
    | LoginRequest(email: Email, password: string)
    | ForgotPasswordRequest(email: Email, draw: nat, now: int)
    | ResetPasswordRequest(email: Email, otp: string, salt: nat, now: int)

  /** The random source only draws from `[0, OtpRange)`. */
  predicate ValidRequest(q: Request) {
    (q.RegisterRequest? || q.ForgotPasswordRequest?) ==> q.draw < Otp.OtpRange
  }

  /**
   * Any one handler: a request that is not answered `Ok` leaves the collection
   * as it was, no request adds or touches a record other than its own email's,
   * no record is ever removed, and the collection stays well formed.
   */
  function Step(s: Store, q: Request): (r: Outcome)
    requires ValidRequest(q)
    ensures r.reply != Ok ==> r.store == s
    ensures s.Keys <= r.store.Keys <= s.Keys + {q.email}
    ensures forall e :: e in s && e != q.email ==> r.store[e] == s[e]
    ensures WellFormed(s) ==> WellFormed(r.store)
  {
    match q
    case RegisterRequest(email, password, draw, salt, id, now) => Register(s, email, password, draw, salt, id, now)
    case VerifyOtpRequest(email, otp, now) => VerifyOtp(s, email, otp, now)
    case LoginRequest(email, password) => Outcome(Login(s, email, password), s, None)
    case ForgotPasswordRequest(email, draw, now) => ForgotPassword(s, email, draw, now)
    case ResetPasswordRequest(email, otp, salt, now) => ResetPassword(s, email, otp, salt, now)
  }

  /** The replies to a sequence of requests, handled one after the other, and the collection they leave. */
  datatype Trace = Trace(replies: seq<Reply>, store: Store)

  function Run(s: Store, qs: seq<Request>): (r: Trace)
    requires forall i :: 0 <= i < |qs| ==> ValidRequest(qs[i])
    ensures |r.replies| == |qs|
    ensures s.Keys <= r.store.Keys
    ensures WellFormed(s) ==> WellFormed(r.store)
    decreases |qs|
  {
    if qs == [] then
      Trace([], s)
    else
      var first := Step(s, qs[0]);
      var rest := Run(first.store, qs[1..]);
      Trace([first.reply] + rest.replies, rest.store)
  }
}

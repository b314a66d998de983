/**
 * The controller over its database and its mail transport. Each handler fetches
 * one record by email, checks it, changes its fields in place and saves it; the
 * mail transport is a log of the messages handed to it (delivery is best effort
 * and its failures are swallowed, so the log is all the handlers can see).
 *
 * Every handler is specified by the matching transition of `AuthSpec`.
 */
module Controller {
  import opened Wrappers
  import opened Credentials
  import opened Users
  import opened AuthSpec
  import Otp

  class AuthController {
    /** The user collection. */
    var users: Store
    /** Every mail handed to the transport, oldest first. */
    var outbox: seq<Mail>

    ghost predicate Valid()
      reads this
    {
      WellFormed(users)
    }

    constructor ()
      ensures Valid()
      ensures users == map[] && outbox == []
    {
      users := map[];
      outbox := [];
    }

    method Register(email: Email, password: string, draw: nat, salt: nat, id: UserId, now: int) returns (reply: Reply)
      requires Valid()
      requires draw < Otp.OtpRange
      modifies this
      ensures Valid()
      ensures var o := AuthSpec.Register(old(users), email, password, draw, salt, id, now);
        reply == o.reply && users == o.store && outbox == old(outbox) + Sent(o.mail)
    {
      if email in users {
        return AlreadyExists;
      }
      var otp := Otp.GenerateOtp(draw);
      var otpExpires := now + OtpLifetimeMs;
      var hashedPassword := Hash(password, salt);
      var user := UserRecord(id, email, hashedPassword, Some(otp), Some(otpExpires));
      if !PassesRequired(user.email) {
        // the save is rejected by validation and the catch answers 500
        return ServerError;
      }
      users := users[email := user];
      outbox := outbox + [OtpMail(email, RegisterSubject, otp)];
      reply := Ok;
    }

    method VerifyOtp(email: Email, otp: string, now: int) returns (reply: Reply)
      requires Valid()
      modifies this
      ensures Valid()
      ensures var o := AuthSpec.VerifyOtp(old(users), email, otp, now);
        reply == o.reply && users == o.store
      ensures outbox == old(outbox)
    {
      if email !in users {
        return NotFound;
      }
      var user := users[email];
      if user.otp != Some(otp) || Expired(user.otpExpires, now) {
        return InvalidOrExpiredOtp;
      }
      user := user.(otp := None);
      user := user.(otpExpires := None);
      users := users[email := user];
      reply := Ok;
    }

    /** Reads the collection and changes nothing. */
    method Login(email: Email, password: string) returns (reply: Reply)
      ensures reply == AuthSpec.Login(users, email, password)
    {
      if email !in users {
        return NotFound;
      }
      var user := users[email];
      var isMatch := Matches(password, user.password);
      if !isMatch {
        return InvalidCredentials;
      }
      if user.otp != None {
        return OtpPending;
      }
      reply := Token(SessionToken(user.id));
    }

    method ForgotPassword(email: Email, draw: nat, now: int) returns (reply: Reply)
      requires Valid()
      requires draw < Otp.OtpRange
      modifies this
      ensures Valid()
      ensures var o := AuthSpec.ForgotPassword(old(users), email, draw, now);
        reply == o.reply && users == o.store && outbox == old(outbox) + Sent(o.mail)
    {
      if email !in users {
        return NotFound;
      }
      var user := users[email];
      var otp := Otp.GenerateOtp(draw);
      user := user.(otp := Some(otp));
      user := user.(otpExpires := Some(now + OtpLifetimeMs));
      users := users[email := user];
      outbox := outbox + [OtpMail(email, ResetSubject, otp)];
      reply := Ok;
    }

    method ResetPassword(email: Email, otp: string, salt: nat, now: int) returns (reply: Reply)
      requires Valid()
      modifies this
      ensures Valid()
      ensures var o := AuthSpec.ResetPassword(old(users), email, otp, salt, now);
        reply == o.reply && users == o.store
      ensures outbox == old(outbox)
    {
      if email !in users {
        return NotFound;
      }
      var user := users[email];
      if user.otp != Some(otp) || Expired(user.otpExpires, now) {
        return InvalidOrExpiredOtp;
      }
      var hashedPassword := Hash(ResetPasswordLiteral, salt);
      user := user.(password := hashedPassword);
      user := user.(otp := None);
      user := user.(otpExpires := None);
      users := users[email := user];
      reply := Ok;
    }
  }
}

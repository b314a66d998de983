/**
 * The user collection: one record per email, with the fields of the `User`
 * schema (`email`, `password`, `otp`, `otpExpires`) and the document id the
 * database assigns.
 */
module Users {
  import opened Wrappers
  import opened Credentials
  import Otp

  type Email = string

  /** The database's document id (`user._id`), the only claim a login token carries. */
  type UserId = nat

  /**
   * `password` holds the bcrypt hash; `otp` is the pending code and `otpExpires`
   * the instant (milliseconds since the epoch) after which it is refused.
   */
  datatype UserRecord = UserRecord(
    id: UserId,
    email: Email,
    password: PasswordHash,
    otp: Option<string>,
    otpExpires: Option<int>)

  /** The collection, keyed by email: a key can hold only one record, which is the schema's `unique` index. */
  type Store = map<Email, UserRecord>

  /** The code and its expiry are set and cleared together. */
  predicate PairedOtp(u: UserRecord) {
    u.otp.Some? <==> u.otpExpires.Some?
  }

  /** The schema's `required: true` on a String field: the empty string fails validation on save. */
  predicate PassesRequired(email: Email) {
    email != ""
  }

  /** A record whose code is pending: registration or a reset is in progress and login is refused. */
  predicate Pending(u: UserRecord) {
    u.otp.Some?
  }

  /**
   * What every handler keeps true of the collection: each record sits under its
   * own email, which the schema accepts, its code and expiry are paired, and a
   * stored code has the shape `generateOTP` gives it.
   */
  predicate WellFormed(s: Store) {
    forall e :: e in s ==>
      s[e].email == e && PassesRequired(e) && PairedOtp(s[e]) && (s[e].otp.Some? ==> Otp.IsOtpCode(s[e].otp.value))
  }
}

/**
 * Password hashing as the controller uses it: `bcrypt.hash(password, 10)` and
 * `bcrypt.compare(password, stored)`.
 *
 * The hash is symbolic. A bcrypt string records its cost factor and its random
 * salt next to the digest, and `compare` re-hashes the candidate with that salt;
 * here the digest is represented by the password itself, so two different
 * passwords never match the same hash and a password always matches its own hash,
 * whatever salt was drawn. The salt is a parameter (it is random in bcrypt).
 */
module Credentials {

  /** The cost factor the controller passes to `bcrypt.hash`. */
  const SaltRounds: nat := 10

  datatype PasswordHash = Bcrypt(rounds: nat, salt: nat, secret: string)

  /** `bcrypt.compare(password, stored)`. */
  predicate Matches(password: string, stored: PasswordHash) {
    stored.secret == password
  }

  /** `bcrypt.hash(password, 10)` with the salt it would draw. */
  function Hash(password: string, salt: nat): (h: PasswordHash)
    ensures Matches(password, h)
    ensures h.rounds == SaltRounds
  {
    Bcrypt(SaltRounds, salt, password)
  }

  /** A hash authenticates its own password and no other, for every salt. */
  lemma HashMatchesOnlyItsPassword(password: string, candidate: string, salt: nat)
    ensures Matches(candidate, Hash(password, salt)) <==> candidate == password
  {
  }
}

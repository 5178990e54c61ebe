/**
 * The libraries the account service calls, reduced to what the service relies on.
 *
 * Every collaborator is symbolic: a value records what it was made from, so that the
 * only facts the rest of the model can use are the ones the service itself relies on
 * (a password matches its own digest; a signed token names its subject; a generator
 * never repeats itself).
 */
module Collaborators {

  /** A MongoDB ObjectId. The store hands them out in increasing order. */
  type Id = nat

  /** bcrypt reads at most this many bytes of a password and ignores the rest. */
  const BcryptMaxLength := 72

  /** The part of a password bcrypt actually reads. */
  function Significant(password: string): string {
    if |password| <= BcryptMaxLength then password else password[..BcryptMaxLength]
  }

  /** A bcrypt digest, recording the part of the password it was made from. */
  datatype Digest = Bcrypt(preimage: string)

  /** bcrypt hashing, as applied when an account is saved. */
  function Hash(password: string): (d: Digest)
    ensures |d.preimage| <= BcryptMaxLength
  {
    Bcrypt(Significant(password))
  }

  /** bcrypt.compare: a candidate matches exactly the digests it would hash to itself. */
  function Matches(password: string, digest: Digest): (ok: bool)
    ensures ok <==> digest == Hash(password)
  {
    digest.preimage == Significant(password)
  }

  /**
   * Two passwords that agree on their first BcryptMaxLength characters match each other's
   * digest, whatever follows.
   */
  lemma LongPasswordsShareDigest(p: string, q: string)
    requires |p| >= BcryptMaxLength && |q| >= BcryptMaxLength
    requires p[..BcryptMaxLength] == q[..BcryptMaxLength]
    ensures Matches(q, Hash(p)) && Matches(p, Hash(q))
  {
  }

  /** A JSON Web Token whose payload is the account id; jsonwebtoken adds the issue time. */
  datatype SessionToken = Jwt(subject: Id, issuedAt: nat)

  /** jwt.sign({ _id: id }, secret) at clock time `now` (in seconds). */
  function Sign(id: Id, now: nat): SessionToken {
    Jwt(id, now)
  }

  /** A version-4 uuid used as an email-verification secret. */
  datatype Uuid = Uuid(serial: nat)

  /** The n-th uuid the service draws; distinct draws give distinct values. */
  function Fresh(n: nat): Uuid {
    Uuid(n)
  }

  /** The one property of uuid() the service relies on: a new draw never repeats an old one. */
  lemma FreshNeverRepeats(m: nat, n: nat)
    ensures Fresh(m) == Fresh(n) ==> m == n
  {
  }

  /** The identicon URL gravatar.url derives from an email address. */
  datatype AvatarUrl = Gravatar(email: string)

  function AvatarOf(email: string): AvatarUrl {
    Gravatar(email)
  }

  /** What the mail transport reports for one send. */
  datatype Delivery = Delivered | Failed
}

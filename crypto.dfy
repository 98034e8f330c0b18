/**
 * The two foreign libraries of the backend, bcrypt and jsonwebtoken, as
 * symbolic terms: a digest or a token records what went into it, and the
 * only way the rest of the model looks inside is through `Compare` and
 * `Verify`, the libraries' own checking functions.
 */
module Crypto {
  import opened Wrappers
  import opened Encoding

  /** The cost factor the pre-save hook passes to `bcrypt.hash`. */
  const SaltRounds: nat := 10

  /** A bcrypt digest: its cost and the plaintext it was computed from (the random salt is not modelled). */
  datatype Digest = Bcrypt(cost: nat, preimage: string)

  /** `bcrypt.hash(plain, SaltRounds)` */
  function Hash(plain: string): (d: Digest)
    ensures d.cost == SaltRounds
  {
    Bcrypt(SaltRounds, plain)
  }

  /** bcrypt reads at most this many bytes of a password. */
  const KeyBytes: nat := 72

  /** What bcrypt reads of a password: the first 72 bytes of its UTF-8 encoding. */
  function BcryptKey(plain: string): (k: seq<Byte>)
    ensures |k| <= KeyBytes
    ensures |Utf8(plain)| <= KeyBytes ==> k == Utf8(plain)
    ensures |Utf8(plain)| > KeyBytes ==> k == Utf8(plain)[..KeyBytes]
  {
    var b := Utf8(plain);
    if |b| <= KeyBytes then b else b[..KeyBytes]
  }

  /** The whole of the password reaches bcrypt. */
  predicate WithinKeyLimit(plain: string) {
    |Utf8(plain)| <= KeyBytes
  }

  /** `bcrypt.compare(plain, d)`: the plaintext agrees with the digest's on what bcrypt reads of each. */
  predicate Compare(plain: string, d: Digest) {
    BcryptKey(plain) == BcryptKey(d.preimage)
  }

  /** Passwords within bcrypt's 72 bytes are read whole, so two different ones give different keys. */
  lemma DistinctKeysWithinLimit(p: string, q: string)
    ensures WithinKeyLimit(p) && WithinKeyLimit(q) && p != q ==> BcryptKey(p) != BcryptKey(q)
  {
    if WithinKeyLimit(p) && WithinKeyLimit(q) && BcryptKey(p) == BcryptKey(q) {
      Utf8Injective(p, q);
    }
  }

  /**
   * Hash then compare accepts the original plaintext, and exactly the
   * plaintexts that agree with it on their first 72 bytes; between
   * passwords of at most 72 bytes, it rejects every other one.
   */
  lemma CompareHash(plain: string, other: string)
    ensures Compare(plain, Hash(plain))
    ensures Compare(other, Hash(plain)) <==> BcryptKey(other) == BcryptKey(plain)
    ensures WithinKeyLimit(plain) && WithinKeyLimit(other) ==> (Compare(other, Hash(plain)) <==> other == plain)
  {
    DistinctKeysWithinLimit(other, plain);
  }

  /** A short password is read whole: four bytes per character at most. */
  lemma ShortWithinKeyLimit(plain: string)
    requires 4 * |plain| <= KeyBytes
    ensures WithinKeyLimit(plain)
  {
  }

  /** Past its first 72 bytes a password does not count: two that agree on those pass for each other. */
  lemma {:induction false} TruncationCollides(p: string, x: string, y: string)
    requires |p| >= KeyBytes
    ensures Compare(p + x, Hash(p + y))
  {
    Utf8Append(p, x);
    Utf8Append(p, y);
    assert Utf8(p + x)[..KeyBytes] == Utf8(p)[..KeyBytes] == Utf8(p + y)[..KeyBytes];
  }

  /** A signed token: its payload, the secret and expiry it was signed with, and its issue time (`iat`). */
  datatype Token<P> = Jwt(payload: P, secret: string, expiresIn: string, issuedAt: int)

  /** `jwt.sign(payload, secret, { expiresIn })` at time `now`. */
  function Sign<P>(payload: P, secret: string, expiresIn: string, now: int): Token<P> {
    Jwt(payload, secret, expiresIn, now)
  }

  /** `jwt.verify(t, secret)` without the expiry check: the payload when the token was signed with `secret`. */
  function Verify<P>(t: Token<P>, secret: string): Option<P> {
    if t.secret == secret then Some(t.payload) else None
  }

  /** Sign then verify gives the payload back under the signing secret and fails under any other. */
  lemma VerifySign<P>(payload: P, secret: string, other: string, expiresIn: string, now: int)
    ensures Verify(Sign(payload, secret, expiresIn, now), secret) == Some(payload)
    ensures other != secret ==> Verify(Sign(payload, secret, expiresIn, now), other) == None
  {
  }
}

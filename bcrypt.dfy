/**
 * The bcrypt library as the user service sees it: a salted one-way hash and a
 * comparison of a plaintext against a stored hash. Its internals (salt
 * generation, cost factor, digest comparison) are not modelled; a hasher is any
 * pair of functions that satisfies Sound.
 */
module Bcrypt {

  /** The random salt that bcrypt.genSalt produces; callers pass it in. */
  type Salt = nat

  /** bcrypt.hash(plaintext, salt) and bcrypt.compare(plaintext, stored). */
  datatype Hasher = Hasher(hash: (string, Salt) -> string, compare: (string, string) -> bool)

  /**
   * What the service relies on: a plaintext always matches its own hash, and a
   * hash is never the empty string (bcrypt hashes are 60 characters long).
   */
  ghost predicate Sound(h: Hasher)
  {
    && (forall p, s :: h.compare(p, h.hash(p, s)))
    && (forall p, s :: h.hash(p, s) != [])
  }
}

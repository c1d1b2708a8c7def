/** The password hasher, left abstract: only its two operations are known. */
module Hashing {

  /** `hash(plaintext)` gives a digest; `compare(plaintext, digest)` checks one. */
  datatype Hasher = Hasher(hash: string -> string, compare: (string, string) -> bool)

  /** The one law the handlers rely on: a password matches its own digest. */
  ghost predicate Sound(h: Hasher) {
    forall p :: h.compare(p, h.hash(p))
  }

  /** No password matches the digest of a different password. bcrypt does not
      meet this: it reads only the first 72 bytes of a password, so two
      passwords sharing those bytes match each other's digest. Lemmas that
      take this as a precondition speak of an idealised hasher. */
  ghost predicate Discriminating(h: Hasher) {
    forall p, q :: p != q ==> !h.compare(p, h.hash(q))
  }
}

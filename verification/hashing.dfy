/** The one-way hasher the record relies on (bcrypt in the application),
    reduced to a pair of functions and the single property the record needs. */
module Hashing {

  /** A stored hash value; bcrypt hashes are strings kept in a text column. */
  type Digest = string

  /** `digest` computes the hash of a secret; `verify(d, s)` asks whether the
      secret `s` matches the stored hash `d`. */
  datatype Hasher = Hasher(digest: string -> Digest, verify: (Digest, string) -> bool)

  /** The hasher's correctness axiom: a secret always verifies against its own digest. */
  ghost predicate Sound(h: Hasher)
  {
    forall s :: h.verify(h.digest(s), s)
  }

  /** A stronger, optional assumption: a digest verifies no secret other than
      the one it was made from. */
  ghost predicate CollisionFree(h: Hasher)
  {
    forall s, t :: h.verify(h.digest(s), t) ==> s == t
  }

  /** Both assumptions can be met at once, so contracts that rely on them are
      not vacuous. */
  lemma AssumptionsSatisfiable()
    ensures exists h :: Sound(h) && CollisionFree(h)
  {
    var h := Hasher(s => s, (d, s) => d == s);
    assert Sound(h) && CollisionFree(h);
  }
}

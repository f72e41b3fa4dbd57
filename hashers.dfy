/**
 * The password hasher the user model relies on (Django's `make_password`,
 * `set_password` and `check_password`). The real hasher is salted and one-way;
 * this model keeps only what the registration and login rules depend on:
 * a stored encoding differs from the plaintext, and a password verifies
 * against its own encoding and against no other.
 */
module Hashers {
  import opened Wrappers

  /** Algorithm tag that starts every encoding of the default PBKDF2 hasher. */
  const Algorithm: string := "pbkdf2_sha256$"

  /** What `make_password(None)` stores: a password nothing can match. */
  const Unusable: string := "!"

  /** The encoded form of a usable password. */
  function Hash(password: string): (encoded: string)
    ensures Algorithm <= encoded
    ensures encoded != password
  {
    Algorithm + password
  }

  /**
   * `check_password(password, encoded)`: the encoding must carry the algorithm
   * tag and what follows it must match the password. In this model any other
   * stored value is a refusal; the real hasher refuses a value whose prefix
   * names no known algorithm, but raises on a malformed one that names PBKDF2.
   */
  function Verify(password: string, encoded: string): (ok: bool)
    ensures ok <==> Algorithm <= encoded && encoded[|Algorithm|..] == password
  {
    encoded == Hash(password)
  }

  /** `make_password`, where `None` stands for the missing password of `create_user`. */
  function MakePassword(password: Option<string>): (encoded: string)
    ensures password.Some? ==> Verify(password.value, encoded)
    ensures password.None? ==> forall p :: !Verify(p, encoded)
  {
    match password
    case None => Unusable
    case Some(p) => Hash(p)
  }

  /** Two passwords with the same encoding are the same password. */
  lemma HashInjective(p: string, q: string)
    ensures Hash(p) == Hash(q) ==> p == q
  {
    if Hash(p) == Hash(q) {
      assert p == Hash(p)[|Algorithm|..];
      assert q == Hash(q)[|Algorithm|..];
    }
  }

  /** A password verifies against the encoding of a different one never. */
  lemma VerifyRejectsOtherPasswords(p: string, q: string)
    requires p != q
    ensures !Verify(q, Hash(p))
  {
    HashInjective(p, q);
  }

  /** A plaintext stored as it is does not verify, not even against itself. */
  lemma VerifyRejectsPlaintext(p: string, stored: string)
    ensures Verify(p, stored) ==> stored != p
  {
  }
}

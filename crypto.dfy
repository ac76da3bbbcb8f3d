/** Field-level encryption and the master-password hash, as the controller in
    src/app.py uses them.  The cipher (Fernet) and the hash (SHA-256) are not
    written out: a `Scheme` is any pair of sealing and opening functions, and
    `Sound` is the one property the vault relies on, stated as a predicate
    that callers must establish rather than as an axiom. */
module Crypto {
  import opened Wrappers

  /** The raw bytes of the symmetric key file. */
  type Key = seq<bv8>

  /** A one-way password hash (SHA-256 hex digest in the program). */
  type HashFn = string -> string

  /** What `decrypt_password` returns when the token cannot be opened. */
  const DecryptFailure: string := "Ошибка"

  /** An authenticated cipher.  `seal(key, nonce, plain)` is encryption with
      the given nonce (Fernet draws a fresh one per call); `open(key, token)`
      is `None` when the token is malformed or fails authentication. */
  datatype Scheme = Scheme(seal: (Key, nat, string) -> string, open: (Key, string) -> Option<string>)

  /** Decryption under the same key inverts encryption, whatever the nonce. */
  ghost predicate Sound(c: Scheme) {
    forall k, n, s :: c.open(k, c.seal(k, n, s)) == Some(s)
  }

  /** `PasswordManager.encrypt_password`. */
  function EncryptPassword(c: Scheme, key: Key, nonce: nat, plain: string): (r: string)
    ensures Sound(c) ==> c.open(key, r) == Some(plain)
  {
    c.seal(key, nonce, plain)
  }

  /** `PasswordManager.decrypt_password`: never fails; an unreadable token
      yields the sentinel. */
  function DecryptPassword(c: Scheme, key: Key, token: string): (r: string)
    ensures c.open(key, token).None? ==> r == DecryptFailure
    ensures c.open(key, token).Some? ==> r == c.open(key, token).value
  {
    match c.open(key, token)
    case Some(p) => p
    case None => DecryptFailure
  }

  /** Round trip: what was encrypted under a key decrypts to itself under it. */
  lemma DecryptEncrypt(c: Scheme, key: Key, nonce: nat, plain: string)
    requires Sound(c)
    ensures DecryptPassword(c, key, EncryptPassword(c, key, nonce, plain)) == plain
  {
  }

  /** Two encryptions of one plaintext under different nonces may differ, yet
      both decrypt to the plaintext. */
  lemma EncryptionsAgreeOnPlaintext(c: Scheme, key: Key, n1: nat, n2: nat, plain: string)
    requires Sound(c)
    ensures DecryptPassword(c, key, EncryptPassword(c, key, n1, plain))
         == DecryptPassword(c, key, EncryptPassword(c, key, n2, plain))
  {
    DecryptEncrypt(c, key, n1, plain);
    DecryptEncrypt(c, key, n2, plain);
  }
}

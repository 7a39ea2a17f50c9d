/** The cryptographic primitives the file routines call, seen only at their
    boundary.  PBKDF2 (section 5.2 of RFC 8018) with HMAC-SHA-256, and
    AES-256 in Galois/Counter Mode (sections 7.1 and 7.2 of NIST SP 800-38D)
    with a 12-byte IV and no additional authenticated data, are library code
    outside this model: they are passed in as a value of `Primitives`, and
    what the routines rely on about them is the hypothesis `Sound`. */
module Crypto {
  import opened Common

  const SaltLen: nat := 16
  const NonceLen: nat := 12
  const HeaderLen: nat := SaltLen + NonceLen
  const KeyLen: nat := 32
  const TagLen: nat := 16
  const Iterations: nat := 100000

  /** `pbkdf2Sha256(password, salt, iterations, keyLength)`,
      `seal(key, nonce, plaintext)` and `open(key, nonce, ciphertext)`;
      `open` answers `None` where Go's `aesGCM.Open` returns an error. */
  datatype Primitives = Primitives(
    pbkdf2Sha256: (Bytes, Bytes, nat, nat) -> Bytes,
    seal: (Bytes, Bytes, Bytes) -> Bytes,
    open: (Bytes, Bytes, Bytes) -> Option<Bytes>)

  /** The facts about the primitives that the framing relies on: the derived
      key has the requested length, sealing appends a 16-byte tag, opening
      what was sealed under the same key and nonce gives back the plaintext,
      and an accepted ciphertext is exactly one tag longer than its plaintext
      (so anything shorter than a tag is refused).  Nothing here says that
      a wrong key or a tampered ciphertext is refused: that is a
      probabilistic guarantee. */
  ghost predicate Sound(c: Primitives)
  {
    && (forall password, salt, iterations, keyLength ::
          |c.pbkdf2Sha256(password, salt, iterations, keyLength)| == keyLength)
    && (forall key, nonce, plaintext ::
          |c.seal(key, nonce, plaintext)| == |plaintext| + TagLen)
    && (forall key, nonce, plaintext ::
          c.open(key, nonce, c.seal(key, nonce, plaintext)) == Some(plaintext))
    && (forall key, nonce, ciphertext ::
          c.open(key, nonce, ciphertext).Some? ==>
            |c.open(key, nonce, ciphertext).value| + TagLen == |ciphertext|)
  }

  /** Key derivation exactly as both routines call it:
      `pbkdf2.Key(password, salt, 100000, 32, sha256.New)`. */
  function DeriveKey(c: Primitives, password: Bytes, salt: Bytes): (key: Bytes)
    ensures Sound(c) ==> |key| == KeyLen
  {
    c.pbkdf2Sha256(password, salt, Iterations, KeyLen)
  }

  /** `aes.NewCipher` accepts keys of 16, 24 or 32 bytes (AES-128, -192,
      -256) and returns an error otherwise. */
  predicate AesKeySizeOk(n: nat)
  {
    n == 16 || n == 24 || n == 32
  }

  /** With sound primitives the AES constructor never fails: the derived key
      is always 32 bytes. */
  lemma DerivedKeyFitsAes(c: Primitives, password: Bytes, salt: Bytes)
    requires Sound(c)
    ensures AesKeySizeOk(|DeriveKey(c, password, salt)|)
  {
  }

  /** GCM refuses a ciphertext shorter than its tag. */
  lemma OpenRefusesShortCiphertext(c: Primitives, key: Bytes, nonce: Bytes, ciphertext: Bytes)
    requires Sound(c)
    requires |ciphertext| < TagLen
    ensures c.open(key, nonce, ciphertext) == None
  {
  }

  /** The hypothesis is not contradictory: a toy cipher that appends a zero
      tag and strips it again satisfies it. */
  lemma SoundIsSatisfiable()
    ensures exists c :: Sound(c)
  {
    var zeroTag: Bytes := seq(TagLen, _ => 0 as byte);
    var toy := Primitives(
      (password: Bytes, salt: Bytes, iterations: nat, keyLength: nat) => seq(keyLength, _ => 0 as byte),
      (key: Bytes, nonce: Bytes, plaintext: Bytes) => plaintext + zeroTag,
      (key: Bytes, nonce: Bytes, ciphertext: Bytes) =>
        if |ciphertext| < TagLen then None else Some(ciphertext[..|ciphertext| - TagLen]));
    forall key, nonce, plaintext
      ensures toy.open(key, nonce, toy.seal(key, nonce, plaintext)) == Some(plaintext)
    {
      assert (plaintext + zeroTag)[..|plaintext|] == plaintext;
    }
    assert Sound(toy);
  }
}

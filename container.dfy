/** The on-disk container: `salt (16 bytes) ++ nonce (12 bytes) ++
    ciphertext-with-tag`, with no length fields, magic number or version.
    Encryption writes the three parts one after the other; decryption
    rejects anything shorter than the 28-byte header and otherwise slices at
    offsets 16 and 28. */
module Container {
  import opened Common
  import opened Crypto

  datatype Parts = Parts(salt: Bytes, nonce: Bytes, ciphertext: Bytes)

  /** The bytes encryption writes, in the order it writes them: the salt,
      then the nonce, then the ciphertext, each at the offset where the one
      before it ends. */
  function Encode(p: Parts): (data: Bytes)
    ensures |data| == |p.salt| + |p.nonce| + |p.ciphertext|
    ensures data[..|p.salt|] == p.salt
    ensures data[|p.salt|..|p.salt| + |p.nonce|] == p.nonce
    ensures data[|p.salt| + |p.nonce|..] == p.ciphertext
  {
    p.salt + p.nonce + p.ciphertext
  }

  /** Decryption's framing: inputs shorter than the header are refused
      (`None`); longer ones split at 16 and 28, the rest being ciphertext
      whatever its length.  Every accepted input is exactly the encoding of
      what it splits into. */
  function Decode(data: Bytes): (r: Option<Parts>)
    ensures r.None? <==> |data| < HeaderLen
    ensures r.Some? ==> |r.value.salt| == SaltLen && |r.value.nonce| == NonceLen
    ensures r.Some? ==> Encode(r.value) == data
  {
    if |data| < HeaderLen then None
    else
      assert data[..SaltLen] + data[SaltLen..HeaderLen] + data[HeaderLen..] == data;
      Some(Parts(data[..SaltLen], data[SaltLen..HeaderLen], data[HeaderLen..]))
  }

  /** A header of the right shape is read back exactly as it was written. */
  lemma DecodeEncode(p: Parts)
    requires |p.salt| == SaltLen && |p.nonce| == NonceLen
    ensures Decode(Encode(p)) == Some(p)
  {
    var data := Encode(p);
    assert data[..SaltLen] == p.salt;
    assert data[SaltLen..HeaderLen] == p.nonce;
    assert data[HeaderLen..] == p.ciphertext;
  }

  /** The container that encryption produces for `plaintext` with the given
      salt and nonce: the key is derived from the password and that salt,
      and the plaintext is sealed under that key and nonce. */
  function Seal(c: Primitives, password: Bytes, salt: Bytes, nonce: Bytes, plaintext: Bytes): Parts
  {
    Parts(salt, nonce, c.seal(DeriveKey(c, password, salt), nonce, plaintext))
  }

  /** Length formula: 28 + |plaintext| + 16. */
  lemma SealedLength(c: Primitives, password: Bytes, salt: Bytes, nonce: Bytes, plaintext: Bytes)
    requires Sound(c)
    requires |salt| == SaltLen && |nonce| == NonceLen
    ensures |Encode(Seal(c, password, salt, nonce, plaintext))| == HeaderLen + |plaintext| + TagLen
  {
  }

  /** Framing round trip: decoding a sealed container gives back the salt
      and nonce it was sealed with, the key derived from that salt is the
      key it was sealed under, and opening its ciphertext gives back the
      plaintext. */
  lemma OpenSealed(c: Primitives, password: Bytes, salt: Bytes, nonce: Bytes, plaintext: Bytes)
    requires Sound(c)
    requires |salt| == SaltLen && |nonce| == NonceLen
    ensures var sealed := Seal(c, password, salt, nonce, plaintext);
            && Decode(Encode(sealed)) == Some(sealed)
            && c.open(DeriveKey(c, password, sealed.salt), sealed.nonce, sealed.ciphertext) == Some(plaintext)
  {
    DecodeEncode(Seal(c, password, salt, nonce, plaintext));
  }

  /** No container shorter than 44 bytes (header plus tag, the encryption
      of an empty file) can be opened, whatever the password. */
  lemma ShortContainerNeverOpens(c: Primitives, password: Bytes, data: Bytes)
    requires Sound(c)
    requires |data| < HeaderLen + TagLen
    ensures Decode(data).Some? ==>
              var p := Decode(data).value;
              c.open(DeriveKey(c, password, p.salt), p.nonce, p.ciphertext) == None
  {
    if Decode(data).Some? {
      var p := Decode(data).value;
      assert |p.ciphertext| < TagLen;
      OpenRefusesShortCiphertext(c, DeriveKey(c, password, p.salt), p.nonce, p.ciphertext);
    }
  }
}

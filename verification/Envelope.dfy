/** Sealing a secret under a fresh key that is itself sealed, over an ideal authenticated cipher. */
module Envelope {
  import opened Common
  import opened Utf8
  import opened EnvelopeAad

  type Bytes = seq<Byte>
  type Key32 = k: Bytes | |k| == 32 witness seq(32, i => 0)
  type Nonce = n: Bytes | |n| == 12 witness seq(12, i => 0)

  /** Arguments are key, nonce, data and associated data; C is the type of sealed data. */
  datatype Aead<!C> = Aead(
    seal: (Bytes, Bytes, Bytes, Bytes) -> C,
    open: (Bytes, Bytes, C, Bytes) -> Option<Bytes>)

  /** Sealed data opens with what it was sealed with, and nothing else ever opens. */
  ghost predicate Ideal<C(!new)>(aead: Aead<C>) {
    && (forall k, n, p, a :: aead.open(k, n, aead.seal(k, n, p, a), a) == Some(p))
    && (forall k, n, c, a, p :: aead.open(k, n, c, a) == Some(p) ==> c == aead.seal(k, n, p, a))
    && (forall k, n, p, a, k', n', p', a' :: aead.seal(k, n, p, a) == aead.seal(k', n', p', a') ==>
          k == k' && n == n' && p == p' && a == a')
  }

  datatype Envelope<C> = Envelope(ciphertext: C, ciphertextNonce: Bytes, wrappedDek: C, wrappedDekNonce: Bytes,
    kekVersion: int, algorithm: string, schema: int)

  datatype VaultError =
    | InvalidKekVersion | InvalidKek | InvalidPlaintext | BadAad(cause: AadError)
    | UnsupportedAlgorithm | UnsupportedSchema | InvalidNonce | AuthFailed | DecryptFailed

  const AES_256_GCM := "aes-256-gcm"
  const SCHEMA_VERSION := 1

  /** The fresh key and nonces are drawn by the caller. */
  function Encrypt<C>(aead: Aead<C>, plaintext: Bytes, kek: Bytes, kekVersion: int, owner: Aad,
    dek: Key32, nonce: Nonce, wrapNonce: Nonce) : Result<Envelope<C>, VaultError>
  {
    if kekVersion < 1 then Err(InvalidKekVersion)
    else if |kek| != 32 then Err(InvalidKek)
    else if plaintext == [] then Err(InvalidPlaintext)
    else
      var aad := EncodeAad(owner);
      if aad.Err? then Err(BadAad(aad.error))
      else Ok(Envelope(aead.seal(dek, nonce, plaintext, aad.value), nonce,
                       aead.seal(kek, wrapNonce, dek, aad.value), wrapNonce,
                       kekVersion, AES_256_GCM, owner.schema))
  }

  function Decrypt<C>(aead: Aead<C>, e: Envelope<C>, kek: Bytes, owner: Aad, algorithm: string)
    : Result<Bytes, VaultError>
  {
    if algorithm != AES_256_GCM then Err(UnsupportedAlgorithm)
    else if owner.schema != SCHEMA_VERSION then Err(UnsupportedSchema)
    else if |kek| != 32 then Err(InvalidKek)
    else if |e.ciphertextNonce| != 12 || |e.wrappedDekNonce| != 12 then Err(InvalidNonce)
    else
      var aad := EncodeAad(owner);
      if aad.Err? then Err(BadAad(aad.error))
      else
        var dek := aead.open(kek, e.wrappedDekNonce, e.wrappedDek, aad.value);
        if dek.None? then Err(AuthFailed)
        else if |dek.value| !in {16, 24, 32} then Err(DecryptFailed)
        else
          var plaintext := aead.open(dek.value, e.ciphertextNonce, e.ciphertext, aad.value);
          if plaintext.None? then Err(AuthFailed) else Ok(plaintext.value)
  }

  /**
   * A sealed secret opens exactly under the key, tenant, connection, version, purpose and schema it
   * was sealed for, and then gives back the secret.
   */
  lemma OpensOnlyForItsOwner<C(!new)>(aead: Aead<C>, plaintext: Bytes, kek: Bytes, kekVersion: int, owner: Aad,
    dek: Key32, nonce: Nonce, wrapNonce: Nonce, otherKek: Bytes, other: Aad, algorithm: string)
    requires Ideal(aead)
    requires Encrypt(aead, plaintext, kek, kekVersion, owner, dek, nonce, wrapNonce).Ok?
    ensures
      var e := Encrypt(aead, plaintext, kek, kekVersion, owner, dek, nonce, wrapNonce).value;
      var r := Decrypt(aead, e, otherKek, other, algorithm);
      && (r.Ok? <==> algorithm == e.algorithm && owner.schema == SCHEMA_VERSION && otherKek == kek && other == owner)
      && (r.Ok? ==> r.value == plaintext)
  {
    var e := Encrypt(aead, plaintext, kek, kekVersion, owner, dek, nonce, wrapNonce).value;
    if EncodeAad(other).Ok? {
      if EncodeAad(other) == EncodeAad(owner) {
        EncodingIsInjective(owner, other);
      }
      var unwrapped := aead.open(otherKek, wrapNonce, e.wrappedDek, EncodeAad(other).value);
      assert unwrapped.Some? ==>
        e.wrappedDek == aead.seal(otherKek, wrapNonce, unwrapped.value, EncodeAad(other).value);
    }
  }

  /** Whatever opens was sealed, key and secret alike, for the very owner it is unwrapped for. */
  lemma OpenedWasSealed<C(!new)>(aead: Aead<C>, e: Envelope<C>, kek: Bytes, owner: Aad, algorithm: string)
    requires Ideal(aead) && Decrypt(aead, e, kek, owner, algorithm).Ok?
    ensures EncodeAad(owner).Ok?
    ensures exists dek ::
      && e.wrappedDek == aead.seal(kek, e.wrappedDekNonce, dek, EncodeAad(owner).value)
      && e.ciphertext ==
         aead.seal(dek, e.ciphertextNonce, Decrypt(aead, e, kek, owner, algorithm).value, EncodeAad(owner).value)
  {
    var aad := EncodeAad(owner).value;
    var dek := aead.open(kek, e.wrappedDekNonce, e.wrappedDek, aad).value;
    assert e.wrappedDek == aead.seal(kek, e.wrappedDekNonce, dek, aad);
  }

  // ----- the ideal cipher is not a contradiction -----

  datatype Box = Box(key: Bytes, nonce: Bytes, data: Bytes, aad: Bytes)

  function BoxAead(): Aead<Box> {
    Aead((k, n, p, a) => Box(k, n, p, a),
         (k: Bytes, n: Bytes, c: Box, a: Bytes) =>
           if c.key == k && c.nonce == n && c.aad == a then Some(c.data) else None)
  }

  lemma IdealCipherExists()
    ensures Ideal(BoxAead())
  {
    var aead := BoxAead();
    assert forall k, n, c, a, p :: aead.open(k, n, c, a) == Some(p) ==> c == aead.seal(k, n, p, a);
  }

  // ----- sealing -----

  /** When a secret can be sealed, and what the envelope says of itself. */
  lemma SealedIff<C>(aead: Aead<C>, plaintext: Bytes, kek: Bytes, kekVersion: int, owner: Aad,
    dek: Key32, nonce: Nonce, wrapNonce: Nonce)
    ensures
      var r := Encrypt(aead, plaintext, kek, kekVersion, owner, dek, nonce, wrapNonce);
      && (r.Ok? <==>
            && 1 <= kekVersion && |kek| == 32 && plaintext != []
            && 1 <= owner.version < 0x1_0000_0000 && 1 <= owner.schema < 0x1_0000_0000
            && owner.purpose != [] && Encodable(owner.purpose) && |Encode(owner.purpose)| <= 65535)
      && (r.Ok? ==>
            && r.value.kekVersion == kekVersion && r.value.algorithm == "aes-256-gcm"
            && r.value.schema == owner.schema
            && r.value.ciphertextNonce == nonce && r.value.wrappedDekNonce == wrapNonce)
  {
  }

  /** Which error an envelope that does not open gets, before its seals are tried. */
  lemma OpenErrorsAre<C>(aead: Aead<C>, e: Envelope<C>, kek: Bytes, owner: Aad, algorithm: string)
    ensures
      var r := Decrypt(aead, e, kek, owner, algorithm);
      && (r == Err(UnsupportedAlgorithm) <==> algorithm != "aes-256-gcm")
      && (algorithm == "aes-256-gcm" ==> (r == Err(UnsupportedSchema) <==> owner.schema != 1))
      && (algorithm == "aes-256-gcm" && owner.schema == 1 ==> (r == Err(InvalidKek) <==> |kek| != 32))
      && (algorithm == "aes-256-gcm" && owner.schema == 1 && |kek| == 32 ==>
            (r == Err(InvalidNonce) <==> |e.ciphertextNonce| != 12 || |e.wrappedDekNonce| != 12))
  {
  }
}

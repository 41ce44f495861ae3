/**
 * Deterministic encryption with AES-256-SIV (RFC 5297) for equality queries:
 * the nonce is fixed, so equal plaintexts under equal contexts encrypt to
 * equal ciphertexts. The context string is the associated data.
 */
module Deterministic {
  import opened Wrappers
  import opened Bytes
  import opened Errors
  import opened Crypto
  import Utf8
  import Context

  /** AES-256-SIV takes a 512-bit key. */
  const SIV_KEY_SIZE: nat := 64

  type SivKey = k: Bytes | |k| == SIV_KEY_SIZE witness Zeros(SIV_KEY_SIZE)

  /** A deterministic vault; its key is set once, checked, and never changed. */
  datatype DeterministicVault = DeterministicVault(key: SivKey)
  {
    /** `DeterministicVault::new`: accepts exactly the 64-byte keys. */
    static function New(key: Bytes): (r: Result<DeterministicVault, Error>)
      ensures r.Success? <==> |key| == SIV_KEY_SIZE
      ensures r.Success? ==> r.value.key == key
      ensures r.Failure? ==> r.error == InvalidKeyLength(SIV_KEY_SIZE, |key|)
    {
      if |key| != SIV_KEY_SIZE then Failure(InvalidKeyLength(SIV_KEY_SIZE, |key|))
      else Success(DeterministicVault(key))
    }

    /**
     * `encrypt`: AES-SIV under the vault key with the all-zero default nonce
     * and the context string as associated data. A key the cipher refuses and
     * a sealing failure are both `Encryption` errors.
     */
    function Encrypt(siv: Aead, plaintext: Bytes, context: Context.EncryptionContext): (r: Result<Bytes, Error>)
      ensures r.Success? <==> |key| == siv.keySize && siv.seal(key, Zeros(siv.nonceSize), plaintext, context.AsBytes()).Some?
      ensures r.Failure? ==> r.error.Encryption?
      ensures r.Success? ==> siv.seal(key, Zeros(siv.nonceSize), plaintext, context.AsBytes()) == Some(r.value)
    {
      if |key| != siv.keySize then Failure(Encryption("Failed to create AES-SIV cipher"))
      else
        match siv.seal(key, Zeros(siv.nonceSize), plaintext, context.AsBytes())
        case None => Failure(Encryption("AES-SIV encryption failed"))
        case Some(ciphertext) => Success(ciphertext)
    }

    /** `decrypt`: the inverse direction; every failure is a `Decryption` error and yields no plaintext. */
    function Decrypt(siv: Aead, ciphertext: Bytes, context: Context.EncryptionContext): (r: Result<Bytes, Error>)
      ensures r.Success? <==> |key| == siv.keySize && siv.open(key, Zeros(siv.nonceSize), ciphertext, context.AsBytes()).Some?
      ensures r.Failure? ==> r.error.Decryption?
      ensures r.Success? ==> siv.open(key, Zeros(siv.nonceSize), ciphertext, context.AsBytes()) == Some(r.value)
    {
      if |key| != siv.keySize then Failure(Decryption("Failed to create AES-SIV cipher"))
      else
        match siv.open(key, Zeros(siv.nonceSize), ciphertext, context.AsBytes())
        case None => Failure(Decryption("AES-SIV decryption failed"))
        case Some(plaintext) => Success(plaintext)
    }

    /** `clone`: a vault with a byte-for-byte copy of the key. */
    function Clone(): (r: DeterministicVault)
      ensures r.key == key
    {
      DeterministicVault(key[..])
    }
  }

  /**
   * With a correct AES-SIV whose key size is the vault's, encryption succeeds
   * whenever the cipher seals, and decrypting the result under the same
   * context gives the plaintext back.
   */
  lemma RoundTrip(v: DeterministicVault, siv: Aead, plaintext: Bytes, context: Context.EncryptionContext)
    requires Correct(siv) && siv.keySize == SIV_KEY_SIZE
    ensures siv.seal(v.key, Zeros(siv.nonceSize), plaintext, context.AsBytes()).Some?
            ==> v.Encrypt(siv, plaintext, context).Success?
    ensures v.Encrypt(siv, plaintext, context).Success?
            ==> v.Decrypt(siv, v.Encrypt(siv, plaintext, context).value, context) == Success(plaintext)
  {
    var nonce := Zeros(siv.nonceSize);
    if siv.seal(v.key, nonce, plaintext, context.AsBytes()).Some? {
      assert siv.open(v.key, nonce, siv.seal(v.key, nonce, plaintext, context.AsBytes()).value, context.AsBytes())
             == Some(plaintext);
    }
  }

  /** Decrypting under a context whose string differs from the one used to encrypt is a `Decryption` error. */
  lemma WrongContextFails(v: DeterministicVault, siv: Aead, plaintext: Bytes,
                          context: Context.EncryptionContext, other: Context.EncryptionContext)
    requires BindsAad(siv)
    requires context.ToString() != other.ToString()
    requires v.Encrypt(siv, plaintext, context).Success?
    ensures v.Decrypt(siv, v.Encrypt(siv, plaintext, context).value, other).Failure?
    ensures v.Decrypt(siv, v.Encrypt(siv, plaintext, context).value, other).error.Decryption?
  {
    if context.AsBytes() == other.AsBytes() {
      Utf8.EncodeInjective(context.ToString(), other.ToString());
    }
    var nonce := Zeros(siv.nonceSize);
    assert siv.open(v.key, nonce, siv.seal(v.key, nonce, plaintext, context.AsBytes()).value, other.AsBytes()).None?;
  }

  /**
   * The ciphertext depends on the key, the plaintext and the context only
   * through its string: vaults with equal keys, here a vault and its clone,
   * encrypt alike under any two contexts that render alike.
   */
  lemma Deterministic(v: DeterministicVault, w: DeterministicVault, siv: Aead, plaintext: Bytes,
                      context: Context.EncryptionContext, other: Context.EncryptionContext)
    requires v.key == w.key
    requires context.ToString() == other.ToString()
    ensures v.Encrypt(siv, plaintext, context) == w.Encrypt(siv, plaintext, other)
    ensures v.Clone().Encrypt(siv, plaintext, context) == v.Encrypt(siv, plaintext, context)
  {
  }
}

/**
 * Envelope encryption. `encrypt` wraps a fresh DEK under the provider's
 * current KEK, seals the plaintext with ChaCha20-Poly1305 (RFC 8439) under
 * that DEK, a fresh 12-byte nonce and the context string as associated data,
 * and returns the header followed by the sealed bytes. `decrypt` parses the
 * header, unwraps the DEK with the KEK the header names and opens the rest.
 *
 * The fresh DEK and nonce are parameters: the vault draws them from the
 * operating system's generator.
 */
module Vault {
  import opened Wrappers
  import opened Bytes
  import opened Errors
  import opened Crypto
  import Utf8
  import Context
  import Header
  import KeyProvider
  import Kdf

  /** ChaCha20-Poly1305 nonces are 96 bits. */
  const NONCE_SIZE: nat := 12

  /** The AEAD the vault seals with; ChaCha20-Poly1305, the default, is the only one. */
  datatype CipherMode = ChaCha20Poly1305

  const DEFAULT_CIPHER_MODE: CipherMode := ChaCha20Poly1305

  /** The header `encrypt` writes for a KEK id, its wrapped DEK and the nonce. */
  function EnvelopeHeader(kekId: string, wrappedDek: Bytes, nonce: Bytes): (h: Header.EncryptionHeader)
    ensures h.version == Header.PROTOCOL_VERSION && !h.flags.IsDeterministic()
  {
    Header.EncryptionHeader.New(kekId, wrappedDek, Header.HeaderFlags.Empty(), nonce)
  }

  /**
   * What `encrypt` returns for a provider in state `s`, given the DEK and the
   * nonce it drew. Provider errors come first and are wrapped as
   * `KeyProvider`; then the cipher; then the header, whose errors pass through.
   */
  function EnvelopeEncrypt(s: KeyProvider.ProviderState, chacha: Aead, plaintext: Bytes,
                           context: Context.EncryptionContext, dek: Bytes, nonce: Bytes): (r: Result<Bytes, Error>)
    ensures s.CurrentKekId().Failure? ==> r == Failure(KeyProvider(s.CurrentKekId().error))
    ensures s.CurrentKekId().Success? && s.WrapDek(s.CurrentKekId().value, dek).Failure?
            ==> r == Failure(KeyProvider(s.WrapDek(s.CurrentKekId().value, dek).error))
    ensures s.CurrentKekId().Success? && s.WrapDek(s.CurrentKekId().value, dek).Success?
            ==> && (|dek| != chacha.keySize ==> r == Failure(EncryptionFailed("Invalid DEK")))
                && (|dek| == chacha.keySize && chacha.seal(dek, nonce, plaintext, context.AsBytes()).None?
                    ==> r == Failure(EncryptionFailed("ChaCha20-Poly1305 encryption failed")))
    ensures r.Failure? ==> r.error.KeyProvider? || r.error.EncryptionFailed? || r.error.InvalidHeader?
    ensures r.Success? ==> s.active.Some? && s.WrapDek(s.active.value, dek).Success?
                           && |dek| == chacha.keySize && chacha.seal(dek, nonce, plaintext, context.AsBytes()).Some?
  {
    match s.CurrentKekId()
    case Failure(e) => Failure(KeyProvider(e))
    case Success(kekId) =>
      match s.WrapDek(kekId, dek)
      case Failure(e) => Failure(KeyProvider(e))
      case Success(wrappedDek) =>
        if |dek| != chacha.keySize then Failure(EncryptionFailed("Invalid DEK"))
        else
          match chacha.seal(dek, nonce, plaintext, context.AsBytes())
          case None => Failure(EncryptionFailed("ChaCha20-Poly1305 encryption failed"))
          case Some(ciphertext) =>
            match Header.Serialize(EnvelopeHeader(kekId, wrappedDek, nonce))
            case Failure(e) => Failure(e)
            case Success(headerBytes) => Success(headerBytes + ciphertext)
  }

  /**
   * What `decrypt` returns for a provider in state `s`. Header errors pass
   * through before the provider is asked anything; the DEK is unwrapped with
   * the KEK id the header names; every rejection by the cipher is
   * `AuthenticationFailed`.
   */
  function EnvelopeDecrypt(s: KeyProvider.ProviderState, chacha: Aead, blob: Bytes,
                           context: Context.EncryptionContext): (r: Result<Bytes, Error>)
    ensures Header.Parse(blob).Failure? ==> r == Failure(Header.Parse(blob).error)
    ensures r.Failure? && r.error.KeyProvider?
            ==> Header.Parse(blob).Success?
                && var h := Header.Parse(blob).value.0;
                   s.UnwrapDek(h.kekId, h.wrappedDek) == Failure(r.error.cause)
    ensures r.Failure? ==> r.error.InvalidHeader? || r.error.UnsupportedVersion? || r.error.KeyProvider?
                           || r.error.DecryptionFailed? || r.error.AuthenticationFailed?
    ensures Header.Parse(blob).Success?
            ==> var (h, headerLen) := Header.Parse(blob).value;
                var dek := s.UnwrapDek(h.kekId, h.wrappedDek);
                && (dek.Failure? ==> r == Failure(KeyProvider(dek.error)))
                && (dek.Success? && |dek.value| != chacha.keySize ==> r == Failure(DecryptionFailed("Invalid DEK")))
                && (dek.Success? && |dek.value| == chacha.keySize && |h.nonce| != NONCE_SIZE
                    ==> r == Failure(DecryptionFailed("Invalid nonce size")))
                && (dek.Success? && |dek.value| == chacha.keySize && |h.nonce| == NONCE_SIZE
                    && chacha.open(dek.value, h.nonce, blob[headerLen..], context.AsBytes()).None?
                    ==> r == Failure(AuthenticationFailed))
                && (dek.Success? && |dek.value| == chacha.keySize && |h.nonce| == NONCE_SIZE
                    && chacha.open(dek.value, h.nonce, blob[headerLen..], context.AsBytes()).Some?
                    ==> r == Success(chacha.open(dek.value, h.nonce, blob[headerLen..], context.AsBytes()).value))
    ensures r.Success? ==> Header.Parse(blob).Success?
                           && var (h, headerLen) := Header.Parse(blob).value;
                              |h.nonce| == NONCE_SIZE && s.UnwrapDek(h.kekId, h.wrappedDek).Success?
                              && chacha.open(s.UnwrapDek(h.kekId, h.wrappedDek).value, h.nonce, blob[headerLen..],
                                             context.AsBytes()) == Some(r.value)
  {
    match Header.Parse(blob)
    case Failure(e) => Failure(e)
    case Success((header, headerLen)) =>
      var body := blob[headerLen..];
      match s.UnwrapDek(header.kekId, header.wrappedDek)
      case Failure(e) => Failure(KeyProvider(e))
      case Success(dek) =>
        if |dek| != chacha.keySize then Failure(DecryptionFailed("Invalid DEK"))
        else if |header.nonce| != NONCE_SIZE then Failure(DecryptionFailed("Invalid nonce size"))
        else
          match chacha.open(dek, header.nonce, body, context.AsBytes())
          case None => Failure(AuthenticationFailed)
          case Some(plaintext) => Success(plaintext)
  }

  /**
   * A vault: a provider, shared by reference with every clone, and the cipher
   * mode.
   */
  class Vault {
    const provider: KeyProvider.KeyProvider
    const cipherMode: CipherMode

    /** `Vault::new`. */
    constructor (provider: KeyProvider.KeyProvider, cipherMode: CipherMode)
      ensures this.provider == provider && this.cipherMode == cipherMode
    {
      this.provider := provider;
      this.cipherMode := cipherMode;
    }

    /** `clone`: the same provider object and the same cipher mode. */
    constructor Clone(other: Vault)
      ensures provider == other.provider && cipherMode == other.cipherMode
    {
      provider := other.provider;
      cipherMode := other.cipherMode;
    }

    /** `encrypt`, with the DEK and nonce it drew: the header bytes, then the sealed bytes. */
    method Encrypt(chacha: Aead, plaintext: Bytes, context: Context.EncryptionContext, dek: Bytes, nonce: Bytes)
      returns (r: Result<Bytes, Error>)
      requires |dek| == Kdf.DEK_SIZE && |nonce| == NONCE_SIZE
      ensures r == EnvelopeEncrypt(provider.state, chacha, plaintext, context, dek, nonce)
    {
      var kekId := provider.state.CurrentKekId();
      if kekId.Failure? {
        return Failure(KeyProvider(kekId.error));
      }
      var wrappedDek := provider.state.WrapDek(kekId.value, dek);
      if wrappedDek.Failure? {
        return Failure(KeyProvider(wrappedDek.error));
      }
      var ciphertext: Bytes;
      match cipherMode {
        case ChaCha20Poly1305 =>
          if |dek| != chacha.keySize {
            return Failure(EncryptionFailed("Invalid DEK"));
          }
          var sealed := chacha.seal(dek, nonce, plaintext, context.AsBytes());
          if sealed.None? {
            return Failure(EncryptionFailed("ChaCha20-Poly1305 encryption failed"));
          }
          ciphertext := sealed.value;
      }
      var header := EnvelopeHeader(kekId.value, wrappedDek.value, nonce);
      var headerBytes := header.ToBytes();
      if headerBytes.Failure? {
        return Failure(headerBytes.error);
      }
      var result: Bytes := [];
      result := result + headerBytes.value;
      result := result + ciphertext;
      assert result == headerBytes.value + ciphertext;
      r := Success(result);
    }

    /** `decrypt`: split at the header's end, unwrap, open. */
    method Decrypt(chacha: Aead, ciphertext: Bytes, context: Context.EncryptionContext)
      returns (r: Result<Bytes, Error>)
      ensures r == EnvelopeDecrypt(provider.state, chacha, ciphertext, context)
    {
      var parsed := Header.EncryptionHeader.FromBytes(ciphertext);
      if parsed.Failure? {
        return Failure(parsed.error);
      }
      var (header, headerLen) := parsed.value;
      var encryptedData := ciphertext[headerLen..];
      var dek := provider.state.UnwrapDek(header.kekId, header.wrappedDek);
      if dek.Failure? {
        return Failure(KeyProvider(dek.error));
      }
      match cipherMode {
        case ChaCha20Poly1305 =>
          if |dek.value| != chacha.keySize {
            return Failure(DecryptionFailed("Invalid DEK"));
          }
          if |header.nonce| != NONCE_SIZE {
            return Failure(DecryptionFailed("Invalid nonce size"));
          }
          var plaintext := chacha.open(dek.value, header.nonce, encryptedData, context.AsBytes());
          if plaintext.None? {
            return Failure(AuthenticationFailed);
          }
          r := Success(plaintext.value);
      }
    }
  }

  /**
   * A successful `encrypt` output starts with a header that parses back to the
   * current KEK id, the wrapped DEK, empty flags and the nonce, and the bytes
   * after it are exactly the sealed plaintext.
   */
  lemma EncryptedLayout(s: KeyProvider.ProviderState, chacha: Aead, plaintext: Bytes,
                        context: Context.EncryptionContext, dek: Bytes, nonce: Bytes)
    requires EnvelopeEncrypt(s, chacha, plaintext, context, dek, nonce).Success?
    ensures var blob := EnvelopeEncrypt(s, chacha, plaintext, context, dek, nonce).value;
            var h := EnvelopeHeader(s.active.value, s.WrapDek(s.active.value, dek).value, nonce);
            && Header.Parse(blob).Success?
            && Header.Parse(blob).value.0 == h
            && blob[Header.Parse(blob).value.1..] == chacha.seal(dek, nonce, plaintext, context.AsBytes()).value
  {
    var h := EnvelopeHeader(s.active.value, s.WrapDek(s.active.value, dek).value, nonce);
    var ciphertext := chacha.seal(dek, nonce, plaintext, context.AsBytes()).value;
    Header.RoundTrip(h, ciphertext);
    var headerBytes := Header.Serialize(h).value;
    assert (headerBytes + ciphertext)[|headerBytes|..] == ciphertext;
  }

  /**
   * Once the provider's KEK id, wrapping and the cipher have succeeded,
   * `encrypt` fails exactly when the header cannot frame the KEK id, the
   * wrapped DEK or the nonce, and then with `InvalidHeader`.
   */
  lemma EncryptFailsOnlyOnFraming(s: KeyProvider.ProviderState, chacha: Aead, plaintext: Bytes,
                                  context: Context.EncryptionContext, dek: Bytes, nonce: Bytes)
    requires s.active.Some? && s.WrapDek(s.active.value, dek).Success?
    requires |dek| == chacha.keySize && chacha.seal(dek, nonce, plaintext, context.AsBytes()).Some?
    ensures var r := EnvelopeEncrypt(s, chacha, plaintext, context, dek, nonce);
            var wrapped := s.WrapDek(s.active.value, dek).value;
            && (r.Failure? <==> |Utf8.Encode(s.active.value)| > 255 || |wrapped| > 65535 || |nonce| > 255)
            && (r.Failure? ==> r.error.InvalidHeader?)
  {
  }

  /**
   * Decrypting what `encrypt` produced, under the same context, gives the
   * plaintext back, provided the provider's unwrapping undoes its wrapping and
   * the cipher is a correct AEAD with 12-byte nonces. The plaintext may be
   * empty.
   */
  lemma RoundTrip(s: KeyProvider.ProviderState, chacha: Aead, plaintext: Bytes,
                  context: Context.EncryptionContext, dek: Bytes, nonce: Bytes)
    requires Correct(chacha) && chacha.nonceSize == NONCE_SIZE && |nonce| == NONCE_SIZE
    requires KeyProvider.AllInvertible(s)
    requires EnvelopeEncrypt(s, chacha, plaintext, context, dek, nonce).Success?
    ensures EnvelopeDecrypt(s, chacha, EnvelopeEncrypt(s, chacha, plaintext, context, dek, nonce).value, context)
            == Success(plaintext)
  {
    EncryptedLayout(s, chacha, plaintext, context, dek, nonce);
    KeyProvider.UnwrapWrap(s, s.active.value, dek);
  }

  /**
   * Decrypting under a context whose string differs from the one used to
   * encrypt fails with `AuthenticationFailed`, given an AEAD that
   * authenticates its associated data.
   */
  lemma WrongContextFails(s: KeyProvider.ProviderState, chacha: Aead, plaintext: Bytes,
                          context: Context.EncryptionContext, other: Context.EncryptionContext,
                          dek: Bytes, nonce: Bytes)
    requires BindsAad(chacha) && |nonce| == NONCE_SIZE
    requires KeyProvider.AllInvertible(s)
    requires context.ToString() != other.ToString()
    requires EnvelopeEncrypt(s, chacha, plaintext, context, dek, nonce).Success?
    ensures EnvelopeDecrypt(s, chacha, EnvelopeEncrypt(s, chacha, plaintext, context, dek, nonce).value, other)
            == Failure(AuthenticationFailed)
  {
    EncryptedLayout(s, chacha, plaintext, context, dek, nonce);
    KeyProvider.UnwrapWrap(s, s.active.value, dek);
    if context.AsBytes() == other.AsBytes() {
      Utf8.EncodeInjective(context.ToString(), other.ToString());
    }
  }

  /**
   * Rotation keeps old ciphertexts readable: after a KEK is added under a new
   * id and any id is made active, everything that decrypted before decrypts
   * to the same plaintext, because `decrypt` unwraps with the KEK id the
   * header names, not the active one.
   */
  lemma RotationKeepsBlobs(s: KeyProvider.ProviderState, chacha: Aead, blob: Bytes,
                           context: Context.EncryptionContext, newId: string, newKek: Bytes,
                           newActive: Option<string>)
    requires newId !in s.keks
    requires EnvelopeDecrypt(s, chacha, blob, context).Success?
    ensures EnvelopeDecrypt(s.(keks := s.keks[newId := newKek], active := newActive), chacha, blob, context)
            == EnvelopeDecrypt(s, chacha, blob, context)
  {
    var h := Header.Parse(blob).value.0;
    assert h.kekId in s.keks;
  }

  /**
   * In the mock provider, `create_kek` never disturbs an existing ciphertext:
   * the new id is fresh, so whatever decrypted before still decrypts alike.
   */
  lemma CreateKekKeepsBlobs(s: KeyProvider.ProviderState, chacha: Aead, blob: Bytes,
                            context: Context.EncryptionContext)
    requires KeyProvider.MockNaming(s) && KeyProvider.AllInvertible(s) && s.scheme == KeyProvider.XOR_SCHEME
    requires EnvelopeDecrypt(s, chacha, blob, context).Success?
    ensures EnvelopeDecrypt(KeyProvider.WithCreatedKek(s), chacha, blob, context)
            == EnvelopeDecrypt(s, chacha, blob, context)
  {
    KeyProvider.CreateKekFresh(s);
    var t := KeyProvider.WithCreatedKek(s);
    assert t == s.(keks := s.keks[KeyProvider.NextKekId(s) := KeyProvider.CREATED_KEK], active := s.active);
    RotationKeepsBlobs(s, chacha, blob, context, KeyProvider.NextKekId(s), KeyProvider.CREATED_KEK, s.active);
  }

  /**
   * The unit tests' setting: a vault over the mock provider and a correct
   * ChaCha20-Poly1305 encrypts every plaintext under every context, and
   * decrypts it back, both through the vault and through a clone of it.
   */
  method MockRoundTrip(chacha: Aead, plaintext: Bytes, context: Context.EncryptionContext, dek: Bytes, nonce: Bytes)
    returns (decrypted: Result<Bytes, Error>, fromClone: Result<Bytes, Error>)
    requires Correct(chacha) && chacha.keySize == Kdf.DEK_SIZE && chacha.nonceSize == NONCE_SIZE
    requires |dek| == Kdf.DEK_SIZE && |nonce| == NONCE_SIZE
    requires chacha.seal(dek, nonce, plaintext, context.AsBytes()).Some?
    ensures decrypted == Success(plaintext) && fromClone == Success(plaintext)
  {
    var provider := new KeyProvider.KeyProvider.Mock();
    var vault := new Vault(provider, DEFAULT_CIPHER_MODE);
    var copy := new Vault.Clone(vault);
    var ciphertext := vault.Encrypt(chacha, plaintext, context, dek, nonce);
    KeyProvider.MockStateNaming();
    KeyProvider.UnwrapWrap(provider.state, KeyProvider.MOCK_KEK_ID, dek);
    assert |KeyProvider.XorCycle(dek, KeyProvider.MOCK_KEK)| == Kdf.DEK_SIZE;
    assert |Utf8.Encode(KeyProvider.MOCK_KEK_ID)| <= 255 by {
      Utf8.EncodeLength(KeyProvider.MOCK_KEK_ID);
    }
    assert ciphertext.Success?;
    RoundTrip(provider.state, chacha, plaintext, context, dek, nonce);
    decrypted := vault.Decrypt(chacha, ciphertext.value, context);
    fromClone := copy.Decrypt(chacha, ciphertext.value, context);
  }
}

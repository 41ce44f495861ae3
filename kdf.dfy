/** Data-encryption keys: derived from a KEK with HKDF-SHA256, or drawn at random. */
module Kdf {
  import opened Wrappers
  import opened Bytes
  import opened Errors
  import opened Crypto
  import Utf8
  import Context

  /** Every DEK is 256 bits. */
  const DEK_SIZE: nat := 32

  /**
   * `derive_dek`: HKDF-SHA256 with no salt, the KEK as input key material and
   * the context string as `info`, expanded to `DEK_SIZE` bytes; an expand
   * failure is `KeyDerivation`.
   */
  function DeriveDek(h: Hmac, kek: Bytes, context: Context.EncryptionContext): (r: Result<Bytes, Error>)
    ensures r.Success? && |r.value| == DEK_SIZE
    ensures r.value == h.tag(h.tag(Zeros(HASH_LEN), kek), context.AsBytes() + [1])
  {
    var prk := Extract(h, None, kek);
    ExpandOneBlock(h, prk, context.AsBytes(), DEK_SIZE);
    match Expand(h, prk, context.AsBytes(), DEK_SIZE)
    case None => Failure(KeyDerivation)
    case Some(okm) => Success(okm)
  }

  /**
   * Contexts that differ only in their key version give HKDF different `info`,
   * so rotating the version derives under a fresh domain.
   */
  lemma InfoSeparatesVersions(e1: Context.EncryptionContext, e2: Context.EncryptionContext)
    requires e1.tenantId == e2.tenantId && e1.tableName == e2.tableName && e1.columnName == e2.columnName
    requires e1.version != e2.version
    ensures e1.AsBytes() != e2.AsBytes()
  {
    Context.VersionSeparates(e1, e2);
    if e1.AsBytes() == e2.AsBytes() {
      Utf8.EncodeInjective(e1.ToString(), e2.ToString());
    }
  }

  /** `generate_dek`: `DEK_SIZE` bytes from the operating system's generator, whose choice is left open. */
  method GenerateDek() returns (dek: Bytes)
    ensures |dek| == DEK_SIZE
  {
    assert |Zeros(DEK_SIZE)| == DEK_SIZE;
    dek :| |dek| == DEK_SIZE;
  }
}

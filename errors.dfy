/**
 * The error kinds the core reports. The message strings of the source are kept
 * where they are fixed text; where a message embeds a library error's own text,
 * only the fixed part is kept.
 */
module Errors {
  import opened Bytes

  /** Failures reported by a key provider. */
  datatype KeyProviderError =
    | KekNotFound(kekId: string)
    | CreationFailed(message: string)
    | NoActiveKek
    | WrapFailed(message: string)
    | UnwrapFailed(message: string)
    | PepperUnavailable(message: string)
    | Io(message: string)

  /**
   * Failures of the core. `Encryption`, `Decryption` and `InvalidKeyLength` are the
   * variants the deterministic vault reports; the others are the envelope path's.
   */
  datatype Error =
    | EncryptionFailed(message: string)
    | DecryptionFailed(message: string)
    | AuthenticationFailed
    | KeyProvider(cause: KeyProviderError)
    | InvalidHeader(message: string)
    | KeyDerivation
    | UnsupportedVersion(version: byte, supported: string)
    | IndexGenerationFailed(message: string)
    | Io(message: string)
    | Encryption(message: string)
    | Decryption(message: string)
    | InvalidKeyLength(expected: nat, actual: nat)
}

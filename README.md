# sifredb field-level encryption, modelled in Dafny

This project models the core of `sifredb`, a library for encrypting database columns field by field. The core has these parts:

- **Encryption contexts.** A context names a field's cryptographic domain: tenant, table, column and key version. Its canonical string `tenant|table|column|v<version>` is used three ways: as the AEAD associated data, as the HKDF `info`, and (without the version) as the blind-index domain tag.
- **Envelope encryption (`Vault`).** A fresh 32-byte DEK (data-encryption key) is wrapped under the provider's current KEK (key-encryption key). The plaintext is sealed with ChaCha20-Poly1305 (RFC 8439) under the DEK and a 12-byte nonce. The output is a self-describing header followed by the sealed bytes.
- **The header wire format:**
  `version(1) | kek_id_len(1) | kek_id | wrapped_dek_len(2, big-endian) | wrapped_dek | flags(1) | nonce_len(1) | nonce`
- **Deterministic encryption.** AES-256-SIV (RFC 5297) with a fixed all-zero nonce, for equality queries.
- **Blind indexes.** The first 16 bytes of HMAC-SHA256 keyed by the provider's pepper, taken over the value followed by the index-context string.
- **DEK derivation.** HKDF-SHA256 (RFC 5869) with no salt.
- **The key-provider contract.** Current KEK id, wrap, unwrap, pepper and KEK creation. The concrete provider is the mock that the vault's unit tests use: XOR wrapping, with new KEKs named `kek_<count>`.

Modules and their roles:

- `Bytes`, `Utf8` and `Decimal` model Rust's `u8`/`u16` byte handling, `str::as_bytes`/`String::from_utf8` and `{}` formatting of integers.
- `Crypto` holds the AEAD and HMAC primitives as values, and HKDF written out over HMAC.
- `Context`, `Header`, `Kdf`, `KeyProvider`, `Deterministic`, `BlindIndex` and `Vault` follow the source files of the same names.

How the source's forms are modelled:

- Pure code stays functional.
  - Contexts and deterministic vaults are immutable values.
  - Header flags are bit operations.
  - The blind index is straight-line code.
- Stateful and step-by-step code is imperative.
  - `to_bytes` appends to a buffer. `from_bytes` walks a cursor, one method per group of fields (KEK id; wrapped DEK; flags and nonce). Both are methods proved equal to the specification functions `Serialize` and `Parse`.
  - The key provider is a class whose state `create_kek` updates.
  - `Vault` is a class that holds a provider shared by reference with its clones. Its `Encrypt` and `Decrypt` methods are proved equal to `EnvelopeEncrypt` and `EnvelopeDecrypt`.
- The interesting properties are lemmas about those functions:
  - header round trips in both directions;
  - truncation detection;
  - envelope round trip;
  - context binding;
  - rotation safety;
  - HKDF prefix structure;
  - UTF-8 round trips.

Inputs the source draws from the operating system are parameters of the methods and functions that use them: the DEK and the nonce. The cryptographic primitives are values of the datatypes `Crypto.Aead` and `Crypto.Hmac`. What the proofs assume of them is stated as the predicates `Crypto.Correct`, `Crypto.BindsAad` and `Crypto.AcceptsAnyKey`, in the `requires` of the lemmas that need them.

## Model

| member | source | states |
|---|---|---|
| Bytes.ToU16BE | sifredb/src/header.rs:160-161 | the two bytes written for a wrapped-DEK length read back big-endian as that length |
| Bytes.ToFromU16BE | sifredb/src/header.rs:221 | reading two length bytes and writing the value back reproduces the same two bytes |
| Bytes.XorBitsInvolutive | sifredb/src/vault.rs:258-259 | bitwise XOR over any width, applied twice with the same second operand, gives the first back |
| Bytes.XorInvolutive | sifredb/src/vault.rs:258-259 | XOR with the same key byte twice gives the byte back |
| Utf8.DecodeEncode | sifredb/src/header.rs:213-214 | `from_utf8` of a string's bytes gives the string back |
| Utf8.EncodeDecode | sifredb/src/header.rs:213-214 | bytes that `from_utf8` accepts are exactly the encoding of the string it returns |
| Utf8.EncodeInjective | sifredb/src/context.rs:85-96 | distinct strings have distinct byte forms, so distinct context strings give distinct associated data |
| Utf8.EncodeAppend | sifredb/src/blind_index.rs:65-69 | the bytes of a concatenation are the concatenation of the bytes |
| Utf8.EncodeLength | sifredb/src/header.rs:124 | a string of n characters takes between n and 4n bytes, which bounds the KEK id length check |
| Utf8.EncodeAscii | sifredb/src/header.rs:124 | an ASCII string's bytes are its character codes, one byte each |
| Decimal.ToDecimal | sifredb/src/context.rs:85-96 | the rendering of a version is a non-empty string of decimal digits |
| Decimal.ValueOfToDecimal | sifredb/src/context.rs:85-96 | reading back a rendered number gives the number |
| Decimal.ToDecimalInjective | sifredb/src/context.rs:85-96 | distinct versions render to distinct numerals |
| Context.TenantOrDefault | sifredb/src/context.rs:91 | a missing tenant renders as "default", a present one as itself |
| Context.EncryptionContext.New | sifredb/src/context.rs:37-44 | a new context has no tenant and key version 1 |
| Context.EncryptionContext.WithTenant | sifredb/src/context.rs:48-51 | sets the tenant and leaves table, column and version unchanged |
| Context.EncryptionContext.WithVersion | sifredb/src/context.rs:55-58 | sets the version and leaves tenant, table and column unchanged |
| Context.IndexContext.New | sifredb/src/context.rs:111-113 | a new index context has no tenant |
| Context.IndexContext.WithTenant | sifredb/src/context.rs:117-120 | sets the tenant and leaves table and column unchanged |
| Context.IndexContext.From | sifredb/src/context.rs:153-161 | keeps tenant, table and column and drops the version |
| Context.EncryptionContext.ToString | sifredb/src/context.rs:85-96 | an encryption context renders as its index context followed by `\|v` and the version in decimal |
| Context.IndexContext.ToString | sifredb/src/context.rs:141-151 | the rendering is tenant-or-default, table and column at fixed positions, separated by the two `\|` |
| Context.PipeFreeRenderingInjective | sifredb/src/context.rs:141-151 | when no field holds a `\|`, index contexts that render alike have the same tenant (absent and "default" alike), table and column |
| Context.VersionSeparates | sifredb/src/context.rs:85-96 | contexts that differ only in key version render to different strings |
| Context.RenderingExamples | sifredb/src/context.rs:168-186 | the renderings `tenant_123\|users\|email\|v2`, `default\|users\|email\|v1` and `tenant_123\|users\|email` |
| Context.RenderingCollisions | sifredb/src/context.rs:85-96 | the rendering is not injective: no tenant and tenant "default" render alike, and a `\|` in a field can shift a boundary |
| Header.HeaderFlags.Empty | sifredb/src/header.rs:22-24 | no flag set: raw value 0, not deterministic |
| Header.HeaderFlags.IsDeterministic | sifredb/src/header.rs:28-31 | holds exactly when `bits & 0x01`, the bitwise and over the eight bits, is non-zero |
| Header.HeaderFlags.WithDeterministic | sifredb/src/header.rs:34-37 | `bits \| 0x01`, computed as a bitwise or, sets the deterministic bit and leaves the other seven bits unchanged |
| Header.HeaderFlags.AsU8 | sifredb/src/header.rs:40-43 | the raw byte is the whole flag state: flags rebuilt from it are the same flags |
| Bytes.AndLowBit | sifredb/src/header.rs:28-31 | and-ing with 0x01 leaves exactly the lowest bit |
| Bytes.OrLowBit | sifredb/src/header.rs:34-37 | or-ing with 0x01 sets the lowest bit and keeps all others |
| Header.HeaderFlags.FromU8 | sifredb/src/header.rs:47-49 | the raw value reads back unchanged |
| Header.FlagsLaws | sifredb/src/header.rs:261-270 | setting the bit is idempotent; raw value round trip; empty flags with the bit set are 1 |
| Header.EncryptionHeader.New | sifredb/src/header.rs:77-86 | a new header carries the current protocol version and the given fields |
| Header.EncryptionHeader.ToBytes | sifredb/src/header.rs:122-174 | the buffer the method builds is exactly `Serialize` |
| Header.EncryptionHeader.FromBytes | sifredb/src/header.rs:185-253 | the cursor walk returns exactly `Parse` |
| Header.Serialize | sifredb/src/header.rs:122-174 | succeeds iff the KEK id bytes, the wrapped DEK and the nonce fit their length prefixes; otherwise `InvalidHeader`; the length is 6 plus the field lengths |
| Header.Parse | sifredb/src/header.rs:185-253 | empty input and a wrong version byte give their specific errors; every error is `InvalidHeader` or `UnsupportedVersion`; a parsed header has version 1 and consumed at most the input |
| Header.LayoutFields | sifredb/src/header.rs:150-172 | where each field sits in the written layout, whatever follows it |
| Header.RoundTrip | sifredb/src/header.rs:272-285 | parsing a serialized header followed by any payload gives the header back and stops exactly at its end |
| Header.ParseKekId | sifredb/src/header.rs:203-215 | a missing length byte, a length running past the data and invalid UTF-8 each fail with `InvalidHeader`; success means the length byte fits and the text is the UTF-8 decoding of exactly the bytes it counts |
| Header.ParseWrappedDek | sifredb/src/header.rs:217-228 | a missing two-byte length and a length running past the data fail with `InvalidHeader`; success returns exactly the big-endian-counted bytes and the position after them |
| Header.ParseFlagsAndNonce | sifredb/src/header.rs:230-248 | missing flags, a missing nonce length and a truncated nonce fail with `InvalidHeader`; success returns the flags byte and exactly the counted nonce bytes |
| Header.EncryptionHeader.ReadKekId | sifredb/src/header.rs:203-215 | the KEK id part of the cursor walk returns exactly `ParseKekId` |
| Header.EncryptionHeader.ReadWrappedDek | sifredb/src/header.rs:217-228 | the wrapped-DEK part of the cursor walk returns exactly `ParseWrappedDek` |
| Header.EncryptionHeader.ReadFlagsAndNonce | sifredb/src/header.rs:230-248 | the flags and nonce part of the cursor walk returns exactly `ParseFlagsAndNonce` |
| Header.ParsedFields | sifredb/src/header.rs:185-253 | every field of a parsed header is the bytes read at its position, and every parsed header fits its length prefixes |
| Header.LayoutFromFields | sifredb/src/header.rs:150-172 | bytes holding a header's fields at the layout's positions are that header's layout |
| Header.ParseThenSerialize | sifredb/src/header.rs:185-253 | a successful parse consumed exactly the bytes that serializing its header writes |
| Header.ParseIgnoresSuffix | sifredb/src/vault.rs:167-170 | a successful parse is unchanged by anything appended, so the payload never affects the header |
| Header.ParseOfExtension | sifredb/src/vault.rs:167-170 | parsing any sequence that extends successfully parsed data gives the same result |
| Header.RoundTripWhole | sifredb/src/header.rs:272-285 | parsing exactly the serialized bytes gives the header back and consumes all of them |
| Header.ParsedPrefixIsWhole | sifredb/src/header.rs:185-253 | no strict prefix of a serialized header parses successfully |
| Header.TruncationDetected | sifredb/src/header.rs:321-332 | every strict prefix of a serialized header is rejected with `InvalidHeader` |
| Header.SerializeExample | sifredb/src/header.rs:272-285 | the unit tests' header (KEK id `kek_v1`, 4-byte wrapped DEK, 12-byte nonce), with its empty flags or any others, serializes to 28 bytes carrying the ASCII bytes of `kek_v1` after the two prefix bytes, and parses back whole |
| Header.ParseExamples | sifredb/src/header.rs:306-326 | `[1, 6]` is "KEK ID truncated"; a leading 99 is `UnsupportedVersion(99, "1")` |
| Crypto.Blocks | sifredb/src/kdf.rs:52-57 | T(1)..T(n) of HKDF-Expand is 32n bytes |
| Crypto.Expand | sifredb/src/kdf.rs:56-57 | HKDF-Expand succeeds iff at most 255 blocks are asked for, and then returns exactly the length asked |
| Crypto.BlocksPrefix | sifredb/src/kdf.rs:52-57 | a shorter block stream is a prefix of a longer one |
| Crypto.ExpandPrefix | sifredb/src/kdf.rs:52-57 | a shorter HKDF-Expand output is a prefix of a longer one |
| Crypto.ExpandOneBlock | sifredb/src/kdf.rs:52-57 | up to 32 bytes, HKDF-Expand is the truncated HMAC(PRK, info \| 0x01) |
| Kdf.DeriveDek | sifredb/src/kdf.rs:44-60 | always succeeds with 32 bytes, equal to HMAC(HMAC(zeros, KEK), context string \| 0x01) |
| Kdf.InfoSeparatesVersions | sifredb/src/kdf.rs:132-143 | contexts differing only in version give HKDF different `info` |
| Kdf.GenerateDek | sifredb/src/kdf.rs:80-86 | a generated DEK is 32 bytes |
| KeyProvider.ProviderState.CurrentKekId | sifredb/src/key_provider.rs:33-38 | succeeds iff a KEK is active, with its id; otherwise `NoActiveKek` |
| KeyProvider.ProviderState.WrapDek | sifredb/src/vault.rs:252-264 | an unknown id is `KekNotFound`; a scheme failure is `WrapFailed`; success is the scheme's wrap under that KEK |
| KeyProvider.ProviderState.UnwrapDek | sifredb/src/vault.rs:266-285 | an unknown id is `KekNotFound`; a scheme failure is `UnwrapFailed`; success is the scheme's unwrap under that KEK |
| KeyProvider.ProviderState.GetPepper | sifredb/src/key_provider.rs:72-83 | an accessor: the answer is the provider's pepper, the same on every call in one state |
| KeyProvider.UnwrapWrap | sifredb/src/key_provider.rs:40-70 | unwrapping what was wrapped under the same KEK id gives the DEK back |
| KeyProvider.XorCycle | sifredb/src/vault.rs:258-259 | the XOR wrap keeps the length, and an empty KEK yields nothing |
| KeyProvider.XorCycleInvolutive | sifredb/src/vault.rs:276-280 | XOR with the same repeated non-empty KEK twice gives the data back |
| KeyProvider.XorSchemeInverts | sifredb/src/vault.rs:252-285 | the mock's unwrap undoes its wrap under any non-empty KEK |
| KeyProvider.MockState | sifredb/src/vault.rs:231-237 | the mock starts with one active KEK "test_kek" of 32 bytes 42 and the default pepper |
| KeyProvider.MockStateNaming | sifredb/src/vault.rs:231-237 | the initial mock state follows the naming discipline, and its KEK is invertible |
| KeyProvider.WithCreatedKek | sifredb/src/vault.rs:241-246 | adds the new KEK under the next id and keeps the active id, the pepper and the wrap scheme |
| KeyProvider.CreateKekFresh | sifredb/src/vault.rs:241-246 | the new id is fresh; exactly one KEK is added; old KEKs are untouched; naming and invertibility are preserved |
| KeyProvider.KeyProvider.constructor | sifredb/src/key_provider.rs:25-84 | a provider in the given state |
| KeyProvider.KeyProvider.Mock | sifredb/src/vault.rs:231-237 | the mock provider's initial state |
| KeyProvider.KeyProvider.CreateKek | sifredb/src/vault.rs:241-246 | returns `kek_<count>` and adds a KEK of 32 bytes 1 under it |
| Deterministic.DeterministicVault.New | sifredb/src/deterministic.rs:67-75 | accepts exactly 64-byte keys; otherwise `InvalidKeyLength(64, actual)` |
| Deterministic.DeterministicVault.Encrypt | sifredb/src/deterministic.rs:95-110 | succeeds iff the key has the cipher's size and AES-SIV seals under the zero nonce with the context string as associated data, and then returns that seal; every failure is `Encryption` |
| Deterministic.DeterministicVault.Decrypt | sifredb/src/deterministic.rs:129-144 | succeeds iff the key has the cipher's size and AES-SIV opens under the zero nonce with the context string, and then returns that plaintext; every failure is `Decryption` |
| Deterministic.DeterministicVault.Clone | sifredb/src/deterministic.rs:147-154 | the clone holds the same key |
| Deterministic.RoundTrip | sifredb/src/deterministic.rs:179-189 | with a correct AES-SIV taking 64-byte keys, encryption succeeds whenever the cipher seals, and decrypting its output under the same context gives the plaintext back |
| Deterministic.WrongContextFails | sifredb/src/deterministic.rs:216-228 | decrypting under a context with a different string is a `Decryption` error |
| Deterministic.Deterministic | sifredb/src/deterministic.rs:166-177 | equal keys and equally rendered contexts give equal ciphertexts, also through a clone |
| BlindIndex.GenerateBlindIndex | sifredb/src/blind_index.rs:50-76 | a pepper error is passed on; no pepper is "Pepper not available"; success iff a pepper HMAC accepts; 16 bytes, equal to the truncated HMAC of value and context string |
| BlindIndex.GenerateDeterministicIndex | sifredb/src/blind_index.rs:112-118 | it is the blind index, so it succeeds iff a pepper HMAC accepts is supplied and then gives the same 16-byte truncated tag for the same value and context |
| BlindIndex.PepperDecides | sifredb/src/blind_index.rs:220-228 | with HMAC-SHA256, an index exists iff the provider supplies a pepper; the trait's default `get_pepper` answer `Ok(None)` (`DEFAULT_PEPPER`) always gives `IndexGenerationFailed` |
| BlindIndex.ValueTenantBoundaryAmbiguous | sifredb/src/blind_index.rs:64-69 | value "x" with tenant "yz" and value "xy" with tenant "z" feed HMAC the same bytes and share an index |
| Vault.EnvelopeHeader | sifredb/src/vault.rs:136-137 | the header `encrypt` writes has version 1 and no deterministic flag |
| Vault.EnvelopeEncrypt | sifredb/src/vault.rs:96-145 | provider errors come first as `KeyProvider`; after a successful wrap, a DEK of the wrong size is `EncryptionFailed("Invalid DEK")` and a seal failure is `EncryptionFailed` with the cipher's message; every error is `KeyProvider`, `EncryptionFailed` or `InvalidHeader`; success requires an active KEK, a wrap and a seal |
| Vault.EnvelopeDecrypt | sifredb/src/vault.rs:165-207 | header errors pass through; an unwrap failure under the header's KEK id is `KeyProvider`; a DEK of the wrong size is "Invalid DEK"; a nonce that is not 12 bytes is "Invalid nonce size"; an AEAD rejection is `AuthenticationFailed`; when every check passes and the AEAD opens the bytes after the header, the result is exactly that plaintext, and every success is such an open |
| Vault.Vault.constructor | sifredb/src/vault.rs:75-77 | a vault over the given provider and cipher mode |
| Vault.Vault.Clone | sifredb/src/vault.rs:210-214 | a clone shares the same provider object and cipher mode |
| Vault.Vault.Encrypt | sifredb/src/vault.rs:96-145 | the bytes the method assembles are exactly `EnvelopeEncrypt` of the provider's state |
| Vault.Vault.Decrypt | sifredb/src/vault.rs:165-207 | the method's result is exactly `EnvelopeDecrypt` of the provider's state |
| Vault.EncryptedLayout | sifredb/src/vault.rs:135-144 | an encrypted blob starts with a header that parses to the current KEK id, wrapped DEK and nonce, and the rest is exactly the sealed plaintext |
| Vault.EncryptFailsOnlyOnFraming | sifredb/src/vault.rs:135-140 | once wrap and seal succeed, `encrypt` fails iff a header field overflows its prefix, with `InvalidHeader` |
| Vault.RoundTrip | sifredb/src/vault.rs:289-300 | with a correct AEAD and an invertible provider, decrypting an encrypted blob under the same context gives the plaintext |
| Vault.WrongContextFails | sifredb/src/vault.rs:348-362 | decrypting under a context with a different string is `AuthenticationFailed` |
| Vault.RotationKeepsBlobs | sifredb/tests/integration_tests.rs:111-153 | adding a KEK under a new id and changing the active id leaves every decryptable blob decrypting alike |
| Vault.CreateKekKeepsBlobs | sifredb/src/vault.rs:241-246 | the mock's `create_kek` leaves every decryptable blob decrypting alike |
| Vault.MockRoundTrip | sifredb/src/vault.rs:410-422 | over the mock provider, a vault and its clone both decrypt what the vault encrypted |

## Left out

- Cryptography is not computed.
  - ChaCha20-Poly1305, AES-256-SIV and HMAC-SHA256 are parameters.
  - Their correctness and the authentication of associated data are hypotheses, stated as `Crypto.Correct` and `Crypto.BindsAad`.
  - `BindsAad` idealises a tag check that a forger passes with negligible probability.
  - Probabilistic claims are not modelled, such as two encryptions of one plaintext being distinct.
- The operating system's random generator is not modelled.
  - The DEK and nonce of `encrypt` are method parameters.
  - `Kdf.GenerateDek` picks an arbitrary 32-byte value.
- Vault.Vault.Encrypt: requires the 32-byte DEK and 12-byte nonce that `encrypt` draws internally; it is the draw, not a caller, that guarantees them.
- Library error text is cut: the text after "Invalid DEK", "Failed to create AES-SIV cipher", "AES-SIV encryption failed", "AES-SIV decryption failed", "ChaCha20-Poly1305 encryption failed", "Invalid KEK ID UTF-8" and "Invalid pepper" is the cipher crate's and is not modelled.
- The concrete providers are not part of this model.
  - The file provider (sifredb-key-file) and the AWS KMS provider (sifredb-kms-aws) are left out.
  - The provider contract is modelled through `ProviderState` plus the vault tests' mock.
  - The blind-index tests' mock, with its constant "mock_kek" and configurable pepper, is covered only by `ProviderState.pepper`.
- Thread-safety machinery is not modelled: `Arc`, `Mutex`, `Send`/`Sync`, zeroization and `SecretVec`.
  - Sharing of the provider between vault clones is modelled by reference.
- `CipherMode` has a single variant, ChaCha20-Poly1305, as in the source.
- KeyProvider.KeyProvider.CreateKek: models the mock's `create_kek` only; the contract's `CreationFailed` error path belongs to providers not part of this model.
- Error formatting (`Display`) and the derive macro and CLI crates are not modelled.
- HMAC keys: `Crypto.Hmac.acceptsKey` keeps the error branch of `new_from_slice`, although HMAC-SHA256 accepts every key. `BlindIndex.PepperDecides` states the consequence under `Crypto.AcceptsAnyKey`.

Where the documentation and the code differ, the model follows the code:

- The trait documents `WrapFailed`/`UnwrapFailed` as the only wrap and unwrap errors. The mock returns `KekNotFound` for an unknown id, and so does the model.
- The documentation presents the context string as a unique domain separator. It is not injective, as `Context.RenderingCollisions` and `BlindIndex.ValueTenantBoundaryAmbiguous` show.

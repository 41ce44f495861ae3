/**
 * The cryptographic primitives the core calls, given as values: an AEAD
 * cipher (ChaCha20-Poly1305 of RFC 8439, AES-SIV of RFC 5297) and HMAC-SHA256
 * (RFC 2104). The properties the core relies on are predicates over them,
 * stated where a proof needs them. HKDF (RFC 5869) is written out over HMAC.
 */
module Crypto {
  import opened Wrappers
  import opened Bytes

  /** The output length of SHA-256, HashLen in RFC 5869. */
  const HASH_LEN: nat := 32

  /** An HMAC-SHA256 output. */
  type Digest = d: Bytes | |d| == HASH_LEN witness Zeros(HASH_LEN)

  /**
   * HMAC-SHA256: whether `new_from_slice` accepts a key, and the tag of a
   * message under a key.
   */
  datatype Hmac = Hmac(acceptsKey: Bytes -> bool, tag: (Bytes, Bytes) -> Digest)

  /** HMAC takes keys of any length (section 2 of RFC 2104), so `new_from_slice` never fails. */
  ghost predicate AcceptsAnyKey(h: Hmac)
  {
    forall key :: h.acceptsKey(key)
  }

  /**
   * An AEAD cipher: its key and nonce sizes, and its two directions, each
   * taking (key, nonce, message, associated data). `seal` returns None when
   * the cipher refuses to encrypt, `open` when the tag does not verify.
   */
  datatype Aead = Aead(
    keySize: nat,
    nonceSize: nat,
    seal: (Bytes, Bytes, Bytes, Bytes) -> Option<Bytes>,
    open: (Bytes, Bytes, Bytes, Bytes) -> Option<Bytes>)

  /** Opening what was sealed, under the same key, nonce and associated data, gives the message back. */
  ghost predicate Correct(a: Aead)
  {
    forall key, nonce, msg, aad ::
      |key| == a.keySize && |nonce| == a.nonceSize && a.seal(key, nonce, msg, aad).Some?
      ==> a.open(key, nonce, a.seal(key, nonce, msg, aad).value, aad) == Some(msg)
  }

  /**
   * The associated data is authenticated: a sealed message does not open
   * under other associated data. This idealises the tag check, which a forger
   * passes only with negligible probability.
   */
  ghost predicate BindsAad(a: Aead)
  {
    forall key, nonce, msg, aad, other ::
      aad != other && a.seal(key, nonce, msg, aad).Some?
      ==> a.open(key, nonce, a.seal(key, nonce, msg, aad).value, other).None?
  }

  /** HKDF-Extract (section 2.2 of RFC 5869); a missing salt is HashLen zero bytes. */
  function Extract(h: Hmac, salt: Option<Bytes>, ikm: Bytes): Digest
  {
    h.tag(if salt.Some? then salt.value else Zeros(HASH_LEN), ikm)
  }

  /** T(i) of HKDF-Expand (section 2.3 of RFC 5869): HMAC(PRK, T(i-1) | info | i), with T(0) empty. */
  function Block(h: Hmac, prk: Bytes, info: Bytes, i: nat): Digest
    requires 1 <= i <= 255
  {
    var previous := if i == 1 then [] else Block(h, prk, info, i - 1);
    h.tag(prk, previous + info + [i as byte])
  }

  /** T(1) | T(2) | ... | T(n). */
  function Blocks(h: Hmac, prk: Bytes, info: Bytes, n: nat): (t: Bytes)
    requires n <= 255
    ensures |t| == HASH_LEN * n
  {
    if n == 0 then [] else Blocks(h, prk, info, n - 1) + Block(h, prk, info, n)
  }

  /**
   * HKDF-Expand (section 2.3 of RFC 5869): the first `length` bytes of the
   * block stream, or None when more than 255 blocks would be needed.
   */
  function Expand(h: Hmac, prk: Bytes, info: Bytes, length: nat): (okm: Option<Bytes>)
    ensures okm.Some? <==> length <= 255 * HASH_LEN
    ensures okm.Some? ==> |okm.value| == length
  {
    if length > 255 * HASH_LEN then None
    else
      var n := (length + HASH_LEN - 1) / HASH_LEN;
      assert HASH_LEN * n >= length;
      Some(Blocks(h, prk, info, n)[..length])
  }

  /** A shorter stream of blocks is a prefix of a longer one. */
  lemma {:induction false} BlocksPrefix(h: Hmac, prk: Bytes, info: Bytes, m: nat, n: nat)
    requires m <= n <= 255
    ensures Blocks(h, prk, info, m) == Blocks(h, prk, info, n)[..HASH_LEN * m]
    decreases n
  {
    if m < n {
      BlocksPrefix(h, prk, info, m, n - 1);
      var longer := Blocks(h, prk, info, n);
      assert longer[..HASH_LEN * (n - 1)] == Blocks(h, prk, info, n - 1);
    }
  }

  /** Asking HKDF-Expand for fewer bytes gives a prefix of what a longer request gives. */
  lemma ExpandPrefix(h: Hmac, prk: Bytes, info: Bytes, short: nat, long: nat)
    requires short <= long <= 255 * HASH_LEN
    ensures Expand(h, prk, info, short).value == Expand(h, prk, info, long).value[..short]
  {
    var m := (short + HASH_LEN - 1) / HASH_LEN;
    var n := (long + HASH_LEN - 1) / HASH_LEN;
    assert m <= n;
    assert HASH_LEN * m >= short;
    BlocksPrefix(h, prk, info, m, n);
  }

  /** Up to one block, HKDF-Expand is the truncated first block HMAC(PRK, info | 0x01). */
  lemma ExpandOneBlock(h: Hmac, prk: Bytes, info: Bytes, length: nat)
    requires length <= HASH_LEN
    ensures Expand(h, prk, info, length) == Some(h.tag(prk, info + [1])[..length])
  {
    if length > 0 {
      assert (length + HASH_LEN - 1) / HASH_LEN == 1;
      assert Blocks(h, prk, info, 1) == Block(h, prk, info, 1);
      assert [] + info + [1 as byte] == info + [1];
    }
  }
}

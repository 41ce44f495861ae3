/**
 * Blind indexes for equality search over encrypted columns: HMAC-SHA256 keyed
 * by the provider's pepper over the value followed by the index-context
 * string, truncated to 16 bytes. The provider appears through its state,
 * which is all `get_pepper` consults.
 */
module BlindIndex {
  import opened Wrappers
  import opened Bytes
  import opened Errors
  import opened Crypto
  import Utf8
  import Context
  import KeyProvider

  /** Length of every blind index. */
  const BLIND_INDEX_SIZE: nat := 16

  /**
   * `generate_blind_index`: a `get_pepper` error is passed on as a provider
   * error; no pepper, or a pepper HMAC refuses as a key, is
   * `IndexGenerationFailed`; otherwise the index is the first 16 bytes of
   * HMAC(pepper, value | context string).
   */
  function GenerateBlindIndex(provider: KeyProvider.ProviderState, hmac: Hmac, value: Bytes,
                              context: Context.IndexContext): (r: Result<Bytes, Error>)
    ensures provider.GetPepper().Failure? ==> r == Failure(KeyProvider(provider.GetPepper().error))
    ensures provider.GetPepper() == Success(None) ==> r == Failure(IndexGenerationFailed("Pepper not available"))
    ensures r.Failure? ==> r.error.KeyProvider? || r.error.IndexGenerationFailed?
    ensures r.Success? <==> provider.GetPepper().Success? && provider.GetPepper().value.Some?
                            && hmac.acceptsKey(provider.GetPepper().value.value)
    ensures r.Success? ==> |r.value| == BLIND_INDEX_SIZE
    ensures r.Success? ==> r.value == hmac.tag(provider.GetPepper().value.value, value + context.AsBytes())[..BLIND_INDEX_SIZE]
  {
    match provider.GetPepper()
    case Failure(e) => Failure(KeyProvider(e))
    case Success(None) => Failure(IndexGenerationFailed("Pepper not available"))
    case Success(Some(pepper)) =>
      if !hmac.acceptsKey(pepper) then Failure(IndexGenerationFailed("Invalid pepper"))
      else
        var mac := hmac.tag(pepper, value + context.AsBytes());
        Success(mac[..BLIND_INDEX_SIZE])
  }

  /**
   * `generate_deterministic_index`: the blind index itself, so one value under
   * one context always indexes to the same 16 bytes.
   */
  function GenerateDeterministicIndex(provider: KeyProvider.ProviderState, hmac: Hmac, value: Bytes,
                                      context: Context.IndexContext): (r: Result<Bytes, Error>)
    ensures r == GenerateBlindIndex(provider, hmac, value, context)
    ensures r.Success? <==> provider.GetPepper().Success? && provider.GetPepper().value.Some?
                            && hmac.acceptsKey(provider.GetPepper().value.value)
    ensures r.Success? ==> |r.value| == BLIND_INDEX_SIZE
    ensures r.Success? ==> r.value == hmac.tag(provider.GetPepper().value.value, value + context.AsBytes())[..BLIND_INDEX_SIZE]
    ensures r.Failure? ==> r.error.KeyProvider? || r.error.IndexGenerationFailed?
  {
    GenerateBlindIndex(provider, hmac, value, context)
  }

  /**
   * With HMAC-SHA256, which takes any key, every provider that supplies a
   * pepper yields an index, whatever the value; a provider that keeps the
   * default `get_pepper` never does.
   */
  lemma PepperDecides(provider: KeyProvider.ProviderState, hmac: Hmac, value: Bytes, context: Context.IndexContext)
    requires AcceptsAnyKey(hmac)
    ensures GenerateBlindIndex(provider, hmac, value, context).Success?
            <==> provider.GetPepper().Success? && provider.GetPepper().value.Some?
    ensures provider.GetPepper() == KeyProvider.DEFAULT_PEPPER
            ==> GenerateBlindIndex(provider, hmac, value, context).error.IndexGenerationFailed?
  {
    if provider.GetPepper().Success? && provider.GetPepper().value.Some? {
      assert hmac.acceptsKey(provider.GetPepper().value.value);
    }
  }

  /**
   * The MAC input does not mark where the value ends: the value "x" under
   * tenant "yz" and the value "xy" under tenant "z" feed HMAC the same bytes,
   * so they share an index.
   */
  lemma ValueTenantBoundaryAmbiguous(provider: KeyProvider.ProviderState, hmac: Hmac)
    ensures var c1 := Context.IndexContext.New("t", "c").WithTenant("yz");
            var c2 := Context.IndexContext.New("t", "c").WithTenant("z");
            && [0x78] + c1.AsBytes() == [0x78, 0x79] + c2.AsBytes()
            && GenerateBlindIndex(provider, hmac, [0x78], c1) == GenerateBlindIndex(provider, hmac, [0x78, 0x79], c2)
  {
    var c1 := Context.IndexContext.New("t", "c").WithTenant("yz");
    var c2 := Context.IndexContext.New("t", "c").WithTenant("z");
    BoundaryBytes(c1, c2);
  }

  lemma BoundaryBytes(c1: Context.IndexContext, c2: Context.IndexContext)
    requires c1 == Context.IndexContext(Some("yz"), "t", "c") && c2 == Context.IndexContext(Some("z"), "t", "c")
    ensures [0x78] + c1.AsBytes() == [0x78, 0x79] + c2.AsBytes()
  {
    assert c1.ToString() == "y" + c2.ToString();
    Utf8.EncodeAppend("y", c2.ToString());
    assert Utf8.Encode("y") == [0x79];
  }
}

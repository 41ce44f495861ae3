/**
 * The key-provider contract the vault and the blind index depend on: the
 * current KEK id, wrapping and unwrapping a DEK under a named KEK, the
 * optional pepper, and creating a KEK. A provider is observed through its
 * state (its KEKs by id, the active id, what `get_pepper` answers and how it
 * wraps); `create_kek` is the one operation that changes it.
 *
 * The concrete provider is the mock the vault's unit tests use: KEKs in a map,
 * wrapping by XOR with the KEK repeated, and new KEKs named `kek_<count>`.
 */
module KeyProvider {
  import opened Wrappers
  import opened Bytes
  import opened Errors
  import Decimal

  /**
   * How a provider wraps a DEK under a KEK and unwraps it again, each taking
   * (KEK, data); a failure carries the provider's message.
   */
  datatype WrapScheme = WrapScheme(
    wrap: (Bytes, Bytes) -> Result<Bytes, string>,
    unwrap: (Bytes, Bytes) -> Result<Bytes, string>)

  /** Under `kek`, unwrapping undoes every successful wrap. */
  ghost predicate Inverts(scheme: WrapScheme, kek: Bytes)
  {
    forall dek :: scheme.wrap(kek, dek).Success? ==> scheme.unwrap(kek, scheme.wrap(kek, dek).value) == Success(dek)
  }

  /** What a provider holds, as its operations observe it. */
  datatype ProviderState = ProviderState(
    keks: map<string, Bytes>,
    active: Option<string>,
    pepper: Result<Option<Bytes>, KeyProviderError>,
    scheme: WrapScheme)
  {
    /** `current_kek_id`: the active id, or `NoActiveKek` when none is configured. */
    function CurrentKekId(): (r: Result<string, KeyProviderError>)
      ensures r.Success? <==> active.Some?
      ensures r.Success? ==> r.value == active.value
      ensures r.Failure? ==> r.error == NoActiveKek
    {
      match active
      case None => Failure(NoActiveKek)
      case Some(id) => Success(id)
    }

    /** `wrap_dek`: wraps under the named KEK; an unknown id is `KekNotFound`, a scheme failure `WrapFailed`. */
    function WrapDek(kekId: string, dek: Bytes): (r: Result<Bytes, KeyProviderError>)
      ensures kekId !in keks ==> r == Failure(KekNotFound(kekId))
      ensures r.Failure? ==> r.error == KekNotFound(kekId) || r.error.WrapFailed?
      ensures r.Success? ==> kekId in keks && scheme.wrap(keks[kekId], dek) == Success(r.value)
    {
      if kekId !in keks then Failure(KekNotFound(kekId))
      else
        match scheme.wrap(keks[kekId], dek)
        case Failure(message) => Failure(WrapFailed(message))
        case Success(wrapped) => Success(wrapped)
    }

    /** `unwrap_dek`: unwraps under the named KEK; an unknown id is `KekNotFound`, a scheme failure `UnwrapFailed`. */
    function UnwrapDek(kekId: string, wrappedDek: Bytes): (r: Result<Bytes, KeyProviderError>)
      ensures kekId !in keks ==> r == Failure(KekNotFound(kekId))
      ensures r.Failure? ==> r.error == KekNotFound(kekId) || r.error.UnwrapFailed?
      ensures r.Success? ==> kekId in keks && scheme.unwrap(keks[kekId], wrappedDek) == Success(r.value)
    {
      if kekId !in keks then Failure(KekNotFound(kekId))
      else
        match scheme.unwrap(keks[kekId], wrappedDek)
        case Failure(message) => Failure(UnwrapFailed(message))
        case Success(dek) => Success(dek)
    }

    /**
     * `get_pepper`: the provider's answer; a provider without blind-index
     * support answers `Ok(None)`. Asking changes nothing, so every call in one
     * state gets the same answer.
     */
    function GetPepper(): (r: Result<Option<Bytes>, KeyProviderError>)
      ensures r == pepper
    {
      pepper
    }
  }

  /** Every KEK in `s` can be unwrapped with after wrapping. */
  ghost predicate AllInvertible(s: ProviderState)
  {
    forall id :: id in s.keks ==> Inverts(s.scheme, s.keks[id])
  }

  /** Unwrapping what `wrap_dek` produced, under the same KEK id, gives the DEK back. */
  lemma UnwrapWrap(s: ProviderState, kekId: string, dek: Bytes)
    requires AllInvertible(s) && s.WrapDek(kekId, dek).Success?
    ensures s.UnwrapDek(kekId, s.WrapDek(kekId, dek).value) == Success(dek)
  {
    assert Inverts(s.scheme, s.keks[kekId]);
  }

  /** `get_pepper`'s default answer: no pepper, so no blind index. */
  const DEFAULT_PEPPER: Result<Option<Bytes>, KeyProviderError> := Success(None)

  /**
   * The mock's wrapping: each data byte XORed with the KEK repeated
   * cyclically. Pairing with an endless cycle of an empty KEK yields nothing,
   * so an empty KEK wraps everything to the empty sequence.
   */
  function XorCycle(data: Bytes, kek: Bytes): (r: Bytes)
    ensures |kek| == 0 ==> r == []
    ensures |kek| > 0 ==> |r| == |data|
  {
    if |kek| == 0 then []
    else seq(|data|, i requires 0 <= i < |data| => Xor(data[i], kek[i % |kek|]))
  }

  /** XOR with the same repeated, non-empty KEK twice gives the data back. */
  lemma XorCycleInvolutive(data: Bytes, kek: Bytes)
    requires |kek| > 0
    ensures XorCycle(XorCycle(data, kek), kek) == data
  {
    var once := XorCycle(data, kek);
    forall i | 0 <= i < |data|
      ensures XorCycle(once, kek)[i] == data[i]
    {
      XorInvolutive(data[i], kek[i % |kek|]);
    }
  }

  /** The mock's scheme: XOR both ways, never failing. */
  const XOR_SCHEME: WrapScheme :=
    WrapScheme((kek, dek) => Success(XorCycle(dek, kek)), (kek, wrapped) => Success(XorCycle(wrapped, kek)))

  /** The XOR scheme undoes itself under any non-empty KEK. */
  lemma XorSchemeInverts(kek: Bytes)
    requires |kek| > 0
    ensures Inverts(XOR_SCHEME, kek)
  {
    forall dek | XOR_SCHEME.wrap(kek, dek).Success?
      ensures XOR_SCHEME.unwrap(kek, XOR_SCHEME.wrap(kek, dek).value) == Success(dek)
    {
      XorCycleInvolutive(dek, kek);
    }
  }

  /** The KEK the mock starts with, and its id. */
  const MOCK_KEK_ID: string := "test_kek"
  const MOCK_KEK: Bytes := Filled(32, 42)

  /** The KEK material `create_kek` stores in the mock. */
  const CREATED_KEK: Bytes := Filled(32, 1)

  /** The mock's initial state: one KEK, active, and the default pepper. */
  function MockState(): (s: ProviderState)
    ensures s.keks == map[MOCK_KEK_ID := MOCK_KEK] && s.active == Some(MOCK_KEK_ID)
    ensures s.GetPepper() == DEFAULT_PEPPER
  {
    ProviderState(map[MOCK_KEK_ID := MOCK_KEK], Some(MOCK_KEK_ID), DEFAULT_PEPPER, XOR_SCHEME)
  }

  /** The id the mock's `create_kek` gives the next KEK: `kek_` and the number of KEKs held. */
  function NextKekId(s: ProviderState): string
  {
    "kek_" + Decimal.ToDecimal(|s.keks|)
  }

  /** The state after the mock's `create_kek`. */
  function WithCreatedKek(s: ProviderState): (r: ProviderState)
    ensures r.keks == s.keks[NextKekId(s) := CREATED_KEK]
    ensures r.active == s.active && r.pepper == s.pepper && r.scheme == s.scheme
  {
    s.(keks := s.keks[NextKekId(s) := CREATED_KEK])
  }

  /**
   * The mock's naming discipline: every id is the initial one or `kek_n` for
   * some `n` below the number of KEKs held.
   */
  ghost predicate MockNaming(s: ProviderState)
  {
    forall id :: id in s.keks ==>
      id == MOCK_KEK_ID
      || (|id| > 4 && id[..4] == "kek_" && Decimal.IsNumeral(id[4..]) && Decimal.ValueOf(id[4..]) < |s.keks|)
  }

  lemma MockStateNaming()
    ensures MockNaming(MockState())
    ensures AllInvertible(MockState())
  {
    XorSchemeInverts(MOCK_KEK);
  }

  /**
   * In the mock, `create_kek` names a KEK that did not exist, so it adds exactly
   * one entry, leaves every existing KEK and the active id alone, and keeps
   * the naming discipline and every KEK invertible.
   */
  lemma CreateKekFresh(s: ProviderState)
    requires MockNaming(s) && AllInvertible(s) && s.scheme == XOR_SCHEME
    ensures NextKekId(s) !in s.keks
    ensures |WithCreatedKek(s).keks| == |s.keks| + 1
    ensures forall id :: id in s.keks ==> id in WithCreatedKek(s).keks && WithCreatedKek(s).keks[id] == s.keks[id]
    ensures MockNaming(WithCreatedKek(s)) && AllInvertible(WithCreatedKek(s))
  {
    var id := NextKekId(s);
    var digits := Decimal.ToDecimal(|s.keks|);
    assert id[..4] == "kek_" && id[4..] == digits;
    Decimal.ValueOfToDecimal(|s.keks|);
    assert id != MOCK_KEK_ID by {
      assert id[0] != MOCK_KEK_ID[0];
    }
    XorSchemeInverts(CREATED_KEK);
  }

  /**
   * A key provider object. Every clone of a vault shares one of these, so a KEK
   * created through one is visible through all.
   */
  class KeyProvider {
    var state: ProviderState

    /** A provider in the given state. */
    constructor (initial: ProviderState)
      ensures state == initial
    {
      state := initial;
    }

    /** `MockKeyProvider::new`. */
    constructor Mock()
      ensures state == MockState()
    {
      state := MockState();
    }

    /** `create_kek` of the mock: stores `CREATED_KEK` under `NextKekId` and returns that id. */
    method CreateKek() returns (r: Result<string, KeyProviderError>)
      modifies this
      ensures r == Success(NextKekId(old(state)))
      ensures state == WithCreatedKek(old(state))
    {
      var kekId := "kek_" + Decimal.ToDecimal(|state.keks|);
      state := state.(keks := state.keks[kekId := CREATED_KEK]);
      r := Success(kekId);
    }
  }
}

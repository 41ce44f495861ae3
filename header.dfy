/**
 * The header that precedes every envelope ciphertext:
 *
 *   version(1) | kek_id_len(1) | kek_id | wrapped_dek_len(2, big-endian) | wrapped_dek | flags(1) | nonce_len(1) | nonce
 *
 * `FromBytes` reports how many bytes the header took, so that a caller finds
 * the payload right after it without a separate length field.
 */
module Header {
  import opened Wrappers
  import opened Bytes
  import opened Errors
  import Utf8
  import Decimal

  /** The one protocol version this format writes and accepts. */
  const PROTOCOL_VERSION: byte := 1

  /** The `supported` text of `UnsupportedVersion`, `PROTOCOL_VERSION.to_string()`. */
  const SUPPORTED_VERSIONS: string := "1"

  /** The flags byte; bit 0 marks deterministic mode. */
  datatype HeaderFlags = HeaderFlags(bits: byte)
  {
    /** No flag set. */
    static function Empty(): (f: HeaderFlags)
      ensures f.AsU8() == 0 && !f.IsDeterministic()
    {
      HeaderFlags(0)
    }

    /** `bits & 0x01 != 0`: whether the lowest bit is set. */
    function IsDeterministic(): (b: bool)
      ensures b <==> bits % 2 == 1
    {
      AndLowBit(bits as nat, 8);
      AndBits(bits as nat, 0x01, 8) != 0
    }

    /** `bits | 0x01`: sets bit 0 and no other. */
    function WithDeterministic(): (f: HeaderFlags)
      ensures f.IsDeterministic()
      ensures f.AsU8() / 2 == AsU8() / 2
    {
      assert Pow2(8) == 0x100;
      OrLowBit(bits as nat, 8);
      AppendBit(bits as nat / 2, 1);
      HeaderFlags(OrBits(bits as nat, 0x01, 8) as byte)
    }

    /** The raw byte: the flags are exactly this byte. */
    function AsU8(): (r: byte)
      ensures HeaderFlags(r) == this
    {
      bits
    }

    static function FromU8(value: byte): (f: HeaderFlags)
      ensures f.AsU8() == value
    {
      HeaderFlags(value)
    }
  }

  /** Setting the deterministic bit twice is setting it once; the raw byte reads back as the same flags. */
  lemma FlagsLaws(f: HeaderFlags)
    ensures f.WithDeterministic().WithDeterministic() == f.WithDeterministic()
    ensures HeaderFlags.FromU8(f.AsU8()) == f
    ensures HeaderFlags.Empty().WithDeterministic().AsU8() == 1
  {
  }

  datatype EncryptionHeader = EncryptionHeader(
    version: byte,
    kekId: string,
    wrappedDek: Bytes,
    flags: HeaderFlags,
    nonce: Bytes)
  {
    /** `EncryptionHeader::new`: always the current protocol version. */
    static function New(kekId: string, wrappedDek: Bytes, flags: HeaderFlags, nonce: Bytes): (h: EncryptionHeader)
      ensures h.version == PROTOCOL_VERSION
      ensures h.kekId == kekId && h.wrappedDek == wrappedDek && h.flags == flags && h.nonce == nonce
    {
      EncryptionHeader(PROTOCOL_VERSION, kekId, wrappedDek, flags, nonce)
    }

    /** `to_bytes`: validates the three lengths, then appends field after field. */
    method ToBytes() returns (r: Result<Bytes, Error>)
      ensures r == Serialize(this)
    {
      var kid := Utf8.Encode(kekId);
      if |kid| > 255 {
        return Failure(InvalidHeader("KEK ID too long: " + Decimal.ToDecimal(|kid|) + " bytes (max: 255)"));
      }
      if |wrappedDek| > 65535 {
        return Failure(InvalidHeader("Wrapped DEK too long: " + Decimal.ToDecimal(|wrappedDek|) + " bytes (max: 65535)"));
      }
      if |nonce| > 255 {
        return Failure(InvalidHeader("Nonce too long: " + Decimal.ToDecimal(|nonce|) + " bytes (max: 255)"));
      }
      var bytes: Bytes := [];
      bytes := bytes + [version];
      bytes := bytes + [|kid| as byte];
      assert bytes == [version, |kid| as byte];
      bytes := bytes + kid;
      bytes := bytes + ToU16BE(|wrappedDek|);
      bytes := bytes + wrappedDek;
      bytes := bytes + [flags.AsU8()];
      bytes := bytes + [|nonce| as byte];
      assert bytes == [version, |kid| as byte] + kid + ToU16BE(|wrappedDek|) + wrappedDek
                      + [flags.AsU8(), |nonce| as byte];
      bytes := bytes + nonce;
      r := Success(bytes);
    }

    /** `from_bytes`: walks a cursor over `data`, checking the bounds before every read. */
    static method FromBytes(data: Bytes) returns (r: Result<(EncryptionHeader, nat), Error>)
      ensures r == Parse(data)
    {
      if |data| == 0 {
        return Failure(InvalidHeader("Empty header data"));
      }
      var version := data[0];
      if version != PROTOCOL_VERSION {
        return Failure(UnsupportedVersion(version, SUPPORTED_VERSIONS));
      }
      var kekId := ReadKekId(data);
      if kekId.Failure? {
        return Failure(kekId.error);
      }
      var wrappedDek := ReadWrappedDek(data, kekId.value.1);
      if wrappedDek.Failure? {
        return Failure(wrappedDek.error);
      }
      var flagsAndNonce := ReadFlagsAndNonce(data, wrappedDek.value.1);
      if flagsAndNonce.Failure? {
        return Failure(flagsAndNonce.error);
      }
      var (flags, nonce, pos) := flagsAndNonce.value;
      r := Success((EncryptionHeader(version, kekId.value.0, wrappedDek.value.0, flags, nonce), pos));
    }

    /** The KEK id part of the walk, starting at the length byte after the version. */
    static method ReadKekId(data: Bytes) returns (r: Result<(string, nat), Error>)
      ensures r == ParseKekId(data)
    {
      var pos := 1;
      if pos >= |data| {
        return Failure(InvalidHeader("Missing KEK ID length"));
      }
      var kekIdLen := data[pos] as nat;
      pos := pos + 1;
      if pos + kekIdLen > |data| {
        return Failure(InvalidHeader("KEK ID truncated"));
      }
      var kekId := Utf8.Decode(data[pos..pos + kekIdLen]);
      if kekId.None? {
        return Failure(InvalidHeader("Invalid KEK ID UTF-8"));
      }
      r := Success((kekId.value, pos + kekIdLen));
    }

    /** The wrapped DEK part of the walk, from the cursor at `pos`. */
    static method ReadWrappedDek(data: Bytes, pos: nat) returns (r: Result<(Bytes, nat), Error>)
      ensures r == ParseWrappedDek(data, pos)
    {
      if pos + 2 > |data| {
        return Failure(InvalidHeader("Missing wrapped DEK length"));
      }
      var wrappedDekLen := FromU16BE(data[pos], data[pos + 1]);
      var start := pos + 2;
      if start + wrappedDekLen > |data| {
        return Failure(InvalidHeader("Wrapped DEK truncated"));
      }
      r := Success((data[start..start + wrappedDekLen], start + wrappedDekLen));
    }

    /** The flags and nonce part of the walk, from the cursor at `pos`. */
    static method ReadFlagsAndNonce(data: Bytes, pos: nat) returns (r: Result<(HeaderFlags, Bytes, nat), Error>)
      ensures r == ParseFlagsAndNonce(data, pos)
    {
      var cursor := pos;
      if cursor >= |data| {
        return Failure(InvalidHeader("Missing flags"));
      }
      var flags := HeaderFlags.FromU8(data[cursor]);
      cursor := cursor + 1;
      if cursor >= |data| {
        return Failure(InvalidHeader("Missing nonce length"));
      }
      var nonceLen := data[cursor] as nat;
      cursor := cursor + 1;
      if cursor + nonceLen > |data| {
        return Failure(InvalidHeader("Nonce truncated"));
      }
      r := Success((flags, data[cursor..cursor + nonceLen], cursor + nonceLen));
    }
  }

  /** Whether every length-prefixed field fits its prefix. */
  predicate Frameable(h: EncryptionHeader)
  {
    |Utf8.Encode(h.kekId)| <= U8_MAX && |h.wrappedDek| <= U16_MAX && |h.nonce| <= U8_MAX
  }

  /** The wire form of a header whose fields fit their prefixes. */
  function Layout(h: EncryptionHeader): Bytes
    requires Frameable(h)
  {
    var kid := Utf8.Encode(h.kekId);
    [h.version, |kid| as byte] + kid + ToU16BE(|h.wrappedDek|) + h.wrappedDek
      + [h.flags.AsU8(), |h.nonce| as byte] + h.nonce
  }

  /**
   * What `to_bytes` returns: the layout when every field fits its prefix,
   * `InvalidHeader` naming the first field that does not.
   */
  function Serialize(h: EncryptionHeader): (r: Result<Bytes, Error>)
    ensures r.Success? <==> Frameable(h)
    ensures r.Failure? ==> r.error.InvalidHeader?
    ensures r.Success? ==> |r.value| == 6 + |Utf8.Encode(h.kekId)| + |h.wrappedDek| + |h.nonce|
  {
    var kid := Utf8.Encode(h.kekId);
    if |kid| > 255 then
      Failure(InvalidHeader("KEK ID too long: " + Decimal.ToDecimal(|kid|) + " bytes (max: 255)"))
    else if |h.wrappedDek| > 65535 then
      Failure(InvalidHeader("Wrapped DEK too long: " + Decimal.ToDecimal(|h.wrappedDek|) + " bytes (max: 65535)"))
    else if |h.nonce| > 255 then
      Failure(InvalidHeader("Nonce too long: " + Decimal.ToDecimal(|h.nonce|) + " bytes (max: 255)"))
    else
      Success(Layout(h))
  }

  /**
   * What `from_bytes` returns: the header and the number of bytes it took, or
   * the first check that failed. The fields are read in three stages.
   */
  function Parse(data: Bytes): (r: Result<(EncryptionHeader, nat), Error>)
    ensures |data| == 0 ==> r == Failure(InvalidHeader("Empty header data"))
    ensures |data| > 0 && data[0] != PROTOCOL_VERSION
            ==> r == Failure(UnsupportedVersion(data[0], SUPPORTED_VERSIONS))
    ensures r.Failure? ==> r.error.InvalidHeader? || r.error.UnsupportedVersion?
    ensures r.Success? ==> r.value.1 <= |data| && r.value.0.version == PROTOCOL_VERSION
  {
    if |data| == 0 then Failure(InvalidHeader("Empty header data"))
    else if data[0] != PROTOCOL_VERSION then Failure(UnsupportedVersion(data[0], SUPPORTED_VERSIONS))
    else
      match ParseKekId(data)
      case Failure(e) => Failure(e)
      case Success((kekId, kekIdEnd)) =>
        match ParseWrappedDek(data, kekIdEnd)
        case Failure(e) => Failure(e)
        case Success((wrappedDek, dekEnd)) =>
          match ParseFlagsAndNonce(data, dekEnd)
          case Failure(e) => Failure(e)
          case Success((flags, nonce, nonceEnd)) =>
            Success((EncryptionHeader(data[0], kekId, wrappedDek, flags, nonce), nonceEnd))
  }

  /** The KEK id after the version byte: its length byte, then that many bytes of UTF-8; the text and where it ends. */
  function ParseKekId(data: Bytes): (r: Result<(string, nat), Error>)
    ensures r.Failure? ==> r.error.InvalidHeader?
    ensures r.Success? ==> |data| >= 2 && r.value.1 == 2 + data[1] as nat <= |data|
                           && Utf8.Decode(data[2..r.value.1]) == Some(r.value.0)
  {
    if |data| < 2 then Failure(InvalidHeader("Missing KEK ID length"))
    else
      var kekIdEnd := 2 + data[1] as nat;
      if kekIdEnd > |data| then Failure(InvalidHeader("KEK ID truncated"))
      else
        match Utf8.Decode(data[2..kekIdEnd])
        case None => Failure(InvalidHeader("Invalid KEK ID UTF-8"))
        case Some(kekId) => Success((kekId, kekIdEnd))
  }

  /** The wrapped DEK at `pos`: a big-endian two-byte length, then that many bytes; the DEK and where it ends. */
  function ParseWrappedDek(data: Bytes, pos: nat): (r: Result<(Bytes, nat), Error>)
    ensures r.Failure? ==> r.error.InvalidHeader?
    ensures r.Success? ==> pos + 2 <= r.value.1 <= |data|
                           && |r.value.0| == FromU16BE(data[pos], data[pos + 1])
                           && r.value.1 == pos + 2 + |r.value.0|
                           && r.value.0 == data[pos + 2..r.value.1]
  {
    if pos + 2 > |data| then Failure(InvalidHeader("Missing wrapped DEK length"))
    else
      var dekEnd := pos + 2 + FromU16BE(data[pos], data[pos + 1]);
      if dekEnd > |data| then Failure(InvalidHeader("Wrapped DEK truncated"))
      else Success((data[pos + 2..dekEnd], dekEnd))
  }

  /** The flags byte at `pos`, then the nonce's length byte and the nonce; both and where the nonce ends. */
  function ParseFlagsAndNonce(data: Bytes, pos: nat): (r: Result<(HeaderFlags, Bytes, nat), Error>)
    ensures r.Failure? ==> r.error.InvalidHeader?
    ensures r.Success? ==> pos + 2 <= r.value.2 <= |data|
                           && r.value.0 == HeaderFlags(data[pos])
                           && |r.value.1| == data[pos + 1] as nat
                           && r.value.2 == pos + 2 + |r.value.1|
                           && r.value.1 == data[pos + 2..r.value.2]
  {
    if pos >= |data| then Failure(InvalidHeader("Missing flags"))
    else if pos + 1 >= |data| then Failure(InvalidHeader("Missing nonce length"))
    else
      var nonceEnd := pos + 2 + data[pos + 1] as nat;
      if nonceEnd > |data| then Failure(InvalidHeader("Nonce truncated"))
      else Success((HeaderFlags(data[pos]), data[pos + 2..nonceEnd], nonceEnd))
  }

  /** Where each field of the layout sits, with anything appended after it. */
  lemma LayoutFields(h: EncryptionHeader, rest: Bytes)
    requires Frameable(h)
    ensures var data, kid := Layout(h) + rest, Utf8.Encode(h.kekId);
            var kekIdEnd := 2 + |kid|;
            var dekEnd := kekIdEnd + 2 + |h.wrappedDek|;
            && |Layout(h)| == dekEnd + 2 + |h.nonce|
            && data[0] == h.version && data[1] as nat == |kid|
            && data[2..kekIdEnd] == kid
            && FromU16BE(data[kekIdEnd], data[kekIdEnd + 1]) == |h.wrappedDek|
            && data[kekIdEnd + 2..dekEnd] == h.wrappedDek
            && data[dekEnd] == h.flags.AsU8() && data[dekEnd + 1] as nat == |h.nonce|
            && data[dekEnd + 2..dekEnd + 2 + |h.nonce|] == h.nonce
  {
    var kid := Utf8.Encode(h.kekId);
    var len := ToU16BE(|h.wrappedDek|);
    ToFromU16BE(len[0], len[1]);
    SevenPieces([h.version, |kid| as byte], kid, len, h.wrappedDek, [h.flags.AsU8(), |h.nonce| as byte], h.nonce, rest);
  }

  /** Where each piece of a concatenation of seven sits. */
  lemma SevenPieces(head: Bytes, kid: Bytes, len: Bytes, w: Bytes, mid: Bytes, nonce: Bytes, rest: Bytes)
    requires |head| == 2 && |len| == 2 && |mid| == 2
    ensures var data := head + kid + len + w + mid + nonce + rest;
            var k := 2 + |kid|;
            var d := k + 2 + |w|;
            && data[0] == head[0] && data[1] == head[1] && data[2..k] == kid
            && data[k] == len[0] && data[k + 1] == len[1] && data[k + 2..d] == w
            && data[d] == mid[0] && data[d + 1] == mid[1] && data[d + 2..d + 2 + |nonce|] == nonce
  {
    var p1 := head + kid;
    var p2 := p1 + len;
    var p3 := p2 + w;
    var p4 := p3 + mid;
    var data := p4 + nonce + rest;
    assert data == p4 + (nonce + rest);
    assert data[..|p4|] == p4;
    assert data[|p4|..|p4| + |nonce|] == nonce;
    assert p4[..|p3|] == p3 && p3[..|p2|] == p2 && p2[..|p1|] == p1;
    assert data[2..2 + |kid|] == p1[2..] == kid;
    assert data[|p2|..|p3|] == p3[|p2|..] == w;
  }

  /**
   * Parsing what `to_bytes` wrote, followed by any payload, gives back the same
   * header and stops exactly where the header ends.
   */
  lemma RoundTrip(h: EncryptionHeader, rest: Bytes)
    requires h.version == PROTOCOL_VERSION && Serialize(h).Success?
    ensures Parse(Serialize(h).value + rest) == Success((h, |Serialize(h).value|))
  {
    LayoutFields(h, rest);
    Utf8.DecodeEncode(h.kekId);
    var data := Layout(h) + rest;
    var kekIdEnd := 2 + |Utf8.Encode(h.kekId)|;
    var dekEnd := kekIdEnd + 2 + |h.wrappedDek|;
    KekIdAt(data, Utf8.Encode(h.kekId), h.kekId);
    WrappedDekAt(data, kekIdEnd, h.wrappedDek);
    FlagsAndNonceAt(data, dekEnd, h.flags, h.nonce);
  }

  /** The KEK id stage reads back a KEK id placed where the layout puts it. */
  lemma KekIdAt(data: Bytes, kid: Bytes, id: string)
    requires 2 + |kid| <= |data| && data[1] as nat == |kid| && data[2..2 + |kid|] == kid
    requires Utf8.Decode(kid) == Some(id)
    ensures ParseKekId(data) == Success((id, 2 + |kid|))
  {
  }

  /** The wrapped-DEK stage reads back a wrapped DEK placed where the layout puts it. */
  lemma WrappedDekAt(data: Bytes, pos: nat, w: Bytes)
    requires pos + 2 + |w| <= |data| && FromU16BE(data[pos], data[pos + 1]) == |w|
    requires data[pos + 2..pos + 2 + |w|] == w
    ensures ParseWrappedDek(data, pos) == Success((w, pos + 2 + |w|))
  {
  }

  /** The flags and nonce stage reads back flags and a nonce placed where the layout puts them. */
  lemma FlagsAndNonceAt(data: Bytes, pos: nat, flags: HeaderFlags, nonce: Bytes)
    requires pos + 2 + |nonce| <= |data| && data[pos] == flags.AsU8() && data[pos + 1] as nat == |nonce|
    requires data[pos + 2..pos + 2 + |nonce|] == nonce
    ensures ParseFlagsAndNonce(data, pos) == Success((flags, nonce, pos + 2 + |nonce|))
  {
  }

  /**
   * `data` holds the fields of `h` where the layout puts them, the header
   * taking its first `consumed` bytes.
   */
  ghost predicate FieldsAt(h: EncryptionHeader, data: Bytes, consumed: nat)
  {
    && |data| >= 2
    && var kekIdEnd := 2 + data[1] as nat;
       var dekEnd := kekIdEnd + 2 + |h.wrappedDek|;
       && |h.wrappedDek| <= U16_MAX
       && consumed == dekEnd + 2 + |h.nonce| <= |data|
       && data[0] == h.version
       && Utf8.Encode(h.kekId) == data[2..kekIdEnd]
       && data[kekIdEnd..kekIdEnd + 2] == ToU16BE(|h.wrappedDek|)
       && h.wrappedDek == data[kekIdEnd + 2..dekEnd]
       && data[dekEnd] == h.flags.AsU8() && data[dekEnd + 1] as nat == |h.nonce|
       && h.nonce == data[dekEnd + 2..consumed]
  }

  /** Where each field of a parsed header came from; so every parsed header fits its length prefixes. */
  lemma ParsedFields(data: Bytes)
    requires Parse(data).Success?
    ensures FieldsAt(Parse(data).value.0, data, Parse(data).value.1)
    ensures Frameable(Parse(data).value.0)
  {
    ParseStages(data);
    var kekIdEnd := ParseKekId(data).value.1;
    var dekEnd := ParseWrappedDek(data, kekIdEnd).value.1;
    KekIdSource(data);
    WrappedDekSource(data, kekIdEnd);
    StagesFields(data, ParseKekId(data).value, ParseWrappedDek(data, kekIdEnd).value,
                 ParseFlagsAndNonce(data, dekEnd).value);
  }

  /** A successful parse is the three stages' results put together. */
  lemma ParseStages(data: Bytes)
    requires Parse(data).Success?
    ensures ParseKekId(data).Success?
    ensures ParseWrappedDek(data, ParseKekId(data).value.1).Success?
    ensures var dekEnd := ParseWrappedDek(data, ParseKekId(data).value.1).value.1;
            && ParseFlagsAndNonce(data, dekEnd).Success?
            && Parse(data).value
               == (EncryptionHeader(data[0], ParseKekId(data).value.0,
                                    ParseWrappedDek(data, ParseKekId(data).value.1).value.0,
                                    ParseFlagsAndNonce(data, dekEnd).value.0,
                                    ParseFlagsAndNonce(data, dekEnd).value.1),
                   ParseFlagsAndNonce(data, dekEnd).value.2)
  {
  }

  /** The stage results, as the stages' contracts describe them, place the fields where the layout puts them. */
  lemma StagesFields(data: Bytes, kek: (string, nat), dek: (Bytes, nat), rest: (HeaderFlags, Bytes, nat))
    requires |data| >= 2 && kek.1 == 2 + data[1] as nat <= |data| && Utf8.Encode(kek.0) == data[2..kek.1]
    requires kek.1 + 2 <= dek.1 <= |data| && dek.1 == kek.1 + 2 + |dek.0| && dek.0 == data[kek.1 + 2..dek.1]
    requires |dek.0| <= U16_MAX && data[kek.1..kek.1 + 2] == ToU16BE(|dek.0|)
    requires dek.1 + 2 <= rest.2 <= |data| && rest.0 == HeaderFlags(data[dek.1])
    requires |rest.1| == data[dek.1 + 1] as nat && rest.2 == dek.1 + 2 + |rest.1|
    requires rest.1 == data[dek.1 + 2..rest.2]
    ensures var h := EncryptionHeader(data[0], kek.0, dek.0, rest.0, rest.1);
            FieldsAt(h, data, rest.2) && Frameable(h)
  {
  }

  /** The KEK id read is the UTF-8 text of the bytes it was read from. */
  lemma KekIdSource(data: Bytes)
    requires ParseKekId(data).Success?
    ensures Utf8.Encode(ParseKekId(data).value.0) == data[2..ParseKekId(data).value.1]
  {
    Utf8.EncodeDecode(data[2..ParseKekId(data).value.1]);
  }

  /** The wrapped DEK read fits a two-byte length, and its length prefix is the one read. */
  lemma WrappedDekSource(data: Bytes, pos: nat)
    requires ParseWrappedDek(data, pos).Success?
    ensures |ParseWrappedDek(data, pos).value.0| <= U16_MAX
    ensures data[pos..pos + 2] == ToU16BE(|ParseWrappedDek(data, pos).value.0|)
  {
    ToFromU16BE(data[pos], data[pos + 1]);
    TwoBytes(data, pos);
  }

  lemma TwoBytes(s: Bytes, i: nat)
    requires i + 2 <= |s|
    ensures s[i..i + 2] == [s[i], s[i + 1]]
  {
  }

  /** A prefix cut at five points into six given pieces is their concatenation. */
  lemma SixPieces(s: Bytes, i1: nat, i2: nat, i3: nat, i4: nat, i5: nat, n: nat,
                  a: Bytes, b: Bytes, c: Bytes, d: Bytes, e: Bytes, f: Bytes)
    requires i1 <= i2 <= i3 <= i4 <= i5 <= n <= |s|
    requires s[..i1] == a && s[i1..i2] == b && s[i2..i3] == c && s[i3..i4] == d && s[i4..i5] == e && s[i5..n] == f
    ensures s[..n] == a + b + c + d + e + f
  {
    assert s[..i2] == s[..i1] + s[i1..i2];
    assert s[..i3] == s[..i2] + s[i2..i3];
    assert s[..i4] == s[..i3] + s[i3..i4];
    assert s[..i5] == s[..i4] + s[i4..i5];
    assert s[..n] == s[..i5] + s[i5..n];
  }

  /** The bytes holding the fields of a header that fits its prefixes are its layout. */
  lemma LayoutFromFields(h: EncryptionHeader, data: Bytes, consumed: nat)
    requires Frameable(h) && FieldsAt(h, data, consumed)
    ensures Layout(h) == data[..consumed]
  {
    var kekIdEnd := 2 + data[1] as nat;
    var dekStart := kekIdEnd + 2;
    var dekEnd := dekStart + |h.wrappedDek|;
    var kid := Utf8.Encode(h.kekId);
    var head: Bytes := [h.version, |kid| as byte];
    var mid: Bytes := [h.flags.AsU8(), |h.nonce| as byte];
    assert data[..2] == head;
    assert data[dekEnd..dekEnd + 2] == mid;
    SixPieces(data, 2, kekIdEnd, dekStart, dekEnd, dekEnd + 2, consumed,
              head, kid, ToU16BE(|h.wrappedDek|), h.wrappedDek, mid, h.nonce);
  }

  /**
   * The converse: a successful parse consumed exactly the bytes `to_bytes`
   * writes for the header it returns.
   */
  lemma ParseThenSerialize(data: Bytes)
    requires Parse(data).Success?
    ensures Serialize(Parse(data).value.0) == Success(data[..Parse(data).value.1])
  {
    ParsedFields(data);
    LayoutFromFields(Parse(data).value.0, data, Parse(data).value.1);
  }

  /** A successful parse looks only at the bytes it consumed: appending anything changes nothing. */
  lemma ParseIgnoresSuffix(data: Bytes, rest: Bytes)
    requires Parse(data).Success?
    ensures Parse(data + rest) == Parse(data)
  {
    assert data <= data + rest;
    ParseOfExtension(data, data + rest);
  }

  /** The same, for any sequence that `data` is a prefix of. */
  lemma ParseOfExtension(data: Bytes, whole: Bytes)
    requires Parse(data).Success? && data <= whole
    ensures Parse(whole) == Parse(data)
  {
    var kekIdEnd := ParseKekId(data).value.1;
    var dekEnd := ParseWrappedDek(data, kekIdEnd).value.1;
    KekIdOfExtension(data, whole);
    WrappedDekOfExtension(data, whole, kekIdEnd);
    FlagsAndNonceOfExtension(data, whole, dekEnd);
  }

  lemma KekIdOfExtension(data: Bytes, whole: Bytes)
    requires ParseKekId(data).Success? && data <= whole
    ensures ParseKekId(whole) == ParseKekId(data)
  {
    var kekIdEnd := ParseKekId(data).value.1;
    assert whole[2..kekIdEnd] == data[2..kekIdEnd];
  }

  lemma WrappedDekOfExtension(data: Bytes, whole: Bytes, pos: nat)
    requires ParseWrappedDek(data, pos).Success? && data <= whole
    ensures ParseWrappedDek(whole, pos) == ParseWrappedDek(data, pos)
  {
    var dekEnd := ParseWrappedDek(data, pos).value.1;
    assert whole[pos + 2..dekEnd] == data[pos + 2..dekEnd];
  }

  lemma FlagsAndNonceOfExtension(data: Bytes, whole: Bytes, pos: nat)
    requires ParseFlagsAndNonce(data, pos).Success? && data <= whole
    ensures ParseFlagsAndNonce(whole, pos) == ParseFlagsAndNonce(data, pos)
  {
    var nonceEnd := ParseFlagsAndNonce(data, pos).value.2;
    assert whole[pos + 2..nonceEnd] == data[pos + 2..nonceEnd];
  }

  /** Parsing exactly what `to_bytes` wrote gives the header back and consumes all of it. */
  lemma RoundTripWhole(h: EncryptionHeader)
    requires h.version == PROTOCOL_VERSION && Serialize(h).Success?
    ensures Parse(Serialize(h).value) == Success((h, |Serialize(h).value|))
  {
    RoundTrip(h, []);
    assert Serialize(h).value + [] == Serialize(h).value;
  }

  /** A prefix of a serialized header that parses is the whole header. */
  lemma ParsedPrefixIsWhole(h: EncryptionHeader, k: nat)
    requires h.version == PROTOCOL_VERSION && Serialize(h).Success?
    requires k <= |Serialize(h).value|
    ensures Parse(Serialize(h).value[..k]).Success? ==> k == |Serialize(h).value|
  {
    var full := Serialize(h).value;
    if Parse(full[..k]).Success? {
      ParseOfExtension(full[..k], full);
      RoundTripWhole(h);
    }
  }

  /** Cutting a serialized header short anywhere is reported as `InvalidHeader`. */
  lemma TruncationDetected(h: EncryptionHeader, k: nat)
    requires h.version == PROTOCOL_VERSION && Serialize(h).Success?
    requires k < |Serialize(h).value|
    ensures Parse(Serialize(h).value[..k]).Failure?
    ensures Parse(Serialize(h).value[..k]).error.InvalidHeader?
  {
    ParsedPrefixIsWhole(h, k);
    var full := Serialize(h).value;
    if k > 0 {
      assert full[..k][0] == full[0] == PROTOCOL_VERSION;
    }
  }

  lemma ExampleKekIdBytes()
    ensures Utf8.Encode("kek_v1") == [0x6B, 0x65, 0x6B, 0x5F, 0x76, 0x31]
  {
    Utf8.EncodeAscii("kek_v1");
  }

  /**
   * The example of the unit tests, with its empty flags or any others: its
   * header serializes to 28 bytes, whose third to eighth are the KEK id
   * "kek_v1" in ASCII, and parses back whole.
   */
  lemma SerializeExample(flags: HeaderFlags)
    ensures var h := EncryptionHeader.New("kek_v1", [1, 2, 3, 4], flags,
                                          [5, 6, 7, 8, 9, 10, 11, 12, 13, 14, 15, 16]);
            && Serialize(h).Success? && |Serialize(h).value| == 28
            && Serialize(h).value[2..8] == [0x6B, 0x65, 0x6B, 0x5F, 0x76, 0x31]
            && Parse(Serialize(h).value) == Success((h, 28))
  {
    var h := EncryptionHeader.New("kek_v1", [1, 2, 3, 4], flags,
                                  [5, 6, 7, 8, 9, 10, 11, 12, 13, 14, 15, 16]);
    ExampleKekIdBytes();
    LayoutFields(h, []);
    RoundTripWhole(h);
  }

  /** The test inputs: a truncated header and a header of an unknown version. */
  lemma ParseExamples()
    ensures Parse([1, 6]) == Failure(InvalidHeader("KEK ID truncated"))
    ensures Parse([99, 6]).error == UnsupportedVersion(99, "1")
  {
  }
}

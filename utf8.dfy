/**
 * UTF-8, as Rust's `String` stores text: `as_bytes` is `Encode`, and
 * `String::from_utf8` is `Decode`, which accepts exactly the well-formed byte
 * sequences of the Unicode Standard (Table 3-7) and rejects everything else
 * (overlong forms, surrogates, code points above U+10FFFF, truncated sequences).
 */
module Utf8 {
  import opened Bytes
  import opened Wrappers

  predicate IsContinuation(b: byte)
  {
    0x80 <= b <= 0xBF
  }

  /** The UTF-8 form of one Unicode scalar value. */
  function EncodeChar(c: char): (r: Bytes)
    ensures 1 <= |r| <= 4
  {
    var cp := c as int;
    if cp < 0x80 then
      [cp as byte]
    else if cp < 0x800 then
      [(0xC0 + cp / 0x40) as byte, (0x80 + cp % 0x40) as byte]
    else if cp < 0x1_0000 then
      [(0xE0 + cp / 0x1000) as byte, (0x80 + cp / 0x40 % 0x40) as byte, (0x80 + cp % 0x40) as byte]
    else
      [(0xF0 + cp / 0x4_0000) as byte, (0x80 + cp / 0x1000 % 0x40) as byte,
       (0x80 + cp / 0x40 % 0x40) as byte, (0x80 + cp % 0x40) as byte]
  }

  /** `s.as_bytes()`. */
  function Encode(s: string): Bytes
  {
    if s == [] then [] else EncodeChar(s[0]) + Encode(s[1..])
  }

  /**
   * The scalar value that the well-formed sequence at the front of `b` encodes,
   * with the number of bytes it takes, or None when the front of `b` is not a
   * well-formed sequence.
   */
  function DecodeFirst(b: Bytes): (r: Option<(char, nat)>)
    requires |b| > 0
    ensures r.Some? ==> 1 <= r.value.1 <= |b|
  {
    var b0 := b[0] as int;
    if b0 < 0x80 then
      Some((b0 as char, 1))
    else if 0xC2 <= b0 <= 0xDF then
      if |b| >= 2 && IsContinuation(b[1]) then
        Some((((b0 - 0xC0) * 0x40 + (b[1] as int - 0x80)) as char, 2))
      else None
    else if 0xE0 <= b0 <= 0xEF then
      if |b| >= 3 && IsContinuation(b[1]) && IsContinuation(b[2])
         && (b0 == 0xE0 ==> b[1] >= 0xA0) && (b0 == 0xED ==> b[1] <= 0x9F) then
        var cp := (b0 - 0xE0) * 0x1000 + (b[1] as int - 0x80) * 0x40 + (b[2] as int - 0x80);
        Some((cp as char, 3))
      else None
    else if 0xF0 <= b0 <= 0xF4 then
      if |b| >= 4 && IsContinuation(b[1]) && IsContinuation(b[2]) && IsContinuation(b[3])
         && (b0 == 0xF0 ==> b[1] >= 0x90) && (b0 == 0xF4 ==> b[1] <= 0x8F) then
        var cp := (b0 - 0xF0) * 0x4_0000 + (b[1] as int - 0x80) * 0x1000
                  + (b[2] as int - 0x80) * 0x40 + (b[3] as int - 0x80);
        Some((cp as char, 4))
      else None
    else
      None
  }

  /** `String::from_utf8(b)`: the text `b` encodes, or None if `b` is not UTF-8. */
  function Decode(b: Bytes): Option<string>
    decreases |b|
  {
    if b == [] then Some([])
    else
      match DecodeFirst(b)
      case None => None
      case Some((c, w)) =>
        match Decode(b[w..])
        case None => None
        case Some(rest) => Some([c] + rest)
  }

  /** Decoding the front of an encoded character gives that character back. */
  lemma DecodeFirstEncodeChar(c: char, tail: Bytes)
    ensures DecodeFirst(EncodeChar(c) + tail) == Some((c, |EncodeChar(c)|))
  {
    var cp := c as int;
    if cp < 0x80 {
    } else if cp < 0x800 {
      DecodeFirstTwo(c, tail);
    } else if cp < 0x1_0000 {
      DecodeFirstThree(c, tail);
    } else {
      DecodeFirstFour(c, tail);
    }
  }

  lemma DecodeFirstTwo(c: char, tail: Bytes)
    requires 0x80 <= c as int < 0x800
    ensures DecodeFirst(EncodeChar(c) + tail) == Some((c, 2))
  {
    var cp := c as int;
    var b := EncodeChar(c) + tail;
    assert b[0] as int == 0xC0 + cp / 0x40 && b[1] as int == 0x80 + cp % 0x40;
    assert (cp / 0x40) * 0x40 + cp % 0x40 == cp;
  }

  lemma DecodeFirstThree(c: char, tail: Bytes)
    requires 0x800 <= c as int < 0x1_0000
    ensures DecodeFirst(EncodeChar(c) + tail) == Some((c, 3))
  {
    var cp := c as int;
    var q := cp / 0x40;
    var b := EncodeChar(c) + tail;
    assert b[0] as int == 0xE0 + q / 0x40 && b[1] as int == 0x80 + q % 0x40 && b[2] as int == 0x80 + cp % 0x40;
    assert q * 0x40 + cp % 0x40 == cp;
    assert (q / 0x40) * 0x40 + q % 0x40 == q;
  }

  lemma DecodeFirstFour(c: char, tail: Bytes)
    requires 0x1_0000 <= c as int
    ensures DecodeFirst(EncodeChar(c) + tail) == Some((c, 4))
  {
    var cp := c as int;
    var q := cp / 0x40;
    var q2 := q / 0x40;
    assert cp / 0x1000 == q2 && cp / 0x4_0000 == q2 / 0x40;
    var b := EncodeChar(c) + tail;
    assert b[0] as int == 0xF0 + q2 / 0x40 && b[1] as int == 0x80 + q2 % 0x40
      && b[2] as int == 0x80 + q % 0x40 && b[3] as int == 0x80 + cp % 0x40;
    assert q * 0x40 + cp % 0x40 == cp;
    assert q2 * 0x40 + q % 0x40 == q;
    assert (q2 / 0x40) * 0x40 + q2 % 0x40 == q2;
  }

  /** Splitting off six low bits undoes appending them. */
  lemma SixBits(q: int, r: int)
    requires q >= 0 && 0 <= r < 0x40
    ensures (q * 0x40 + r) / 0x40 == q && (q * 0x40 + r) % 0x40 == r
  {
  }

  /** A well-formed sequence decoded at the front of `b` is exactly the encoding of its character. */
  lemma EncodeCharDecodeFirst(b: Bytes)
    requires |b| > 0 && DecodeFirst(b).Some?
    ensures EncodeChar(DecodeFirst(b).value.0) == b[..DecodeFirst(b).value.1]
  {
    var b0 := b[0] as int;
    if b0 < 0x80 {
    } else if b0 <= 0xDF {
      EncodeTwoDecoded(b);
    } else if b0 <= 0xEF {
      EncodeThreeDecoded(b);
    } else {
      EncodeFourDecoded(b);
    }
  }

  lemma EncodeTwoDecoded(b: Bytes)
    requires |b| > 0 && DecodeFirst(b).Some? && 0x80 <= b[0] <= 0xDF
    ensures EncodeChar(DecodeFirst(b).value.0) == b[..DecodeFirst(b).value.1]
  {
    var b0, y := b[0] as int, b[1] as int - 0x80;
    var cp := DecodeFirst(b).value.0 as int;
    assert cp == (b0 - 0xC0) * 0x40 + y;
    SixBits(b0 - 0xC0, y);
  }

  lemma EncodeThreeDecoded(b: Bytes)
    requires |b| > 0 && DecodeFirst(b).Some? && 0xE0 <= b[0] <= 0xEF
    ensures EncodeChar(DecodeFirst(b).value.0) == b[..DecodeFirst(b).value.1]
  {
    var b0, y, z := b[0] as int, b[1] as int - 0x80, b[2] as int - 0x80;
    var cp := DecodeFirst(b).value.0 as int;
    var q := (b0 - 0xE0) * 0x40 + y;
    assert cp == q * 0x40 + z;
    SixBits(q, z);
    SixBits(b0 - 0xE0, y);
    assert cp / 0x40 % 0x40 == y;
    assert cp / 0x1000 == cp / 0x40 / 0x40;
  }

  lemma EncodeFourDecoded(b: Bytes)
    requires |b| > 0 && DecodeFirst(b).Some? && 0xF0 <= b[0]
    ensures EncodeChar(DecodeFirst(b).value.0) == b[..DecodeFirst(b).value.1]
  {
    var b0, x, y, z := b[0] as int, b[1] as int - 0x80, b[2] as int - 0x80, b[3] as int - 0x80;
    var cp := DecodeFirst(b).value.0 as int;
    var q2 := (b0 - 0xF0) * 0x40 + x;
    var q := q2 * 0x40 + y;
    assert cp == q * 0x40 + z;
    SixBits(q, z);
    SixBits(q2, y);
    SixBits(b0 - 0xF0, x);
    assert cp / 0x1000 == cp / 0x40 / 0x40;
    assert cp / 0x4_0000 == cp / 0x40 / 0x40 / 0x40;
  }

  /** The bytes of a concatenation are the concatenation of the bytes. */
  lemma {:induction false} EncodeAppend(s: string, t: string)
    ensures Encode(s + t) == Encode(s) + Encode(t)
  {
    if s == [] {
      assert s + t == t;
    } else {
      assert (s + t)[0] == s[0] && (s + t)[1..] == s[1..] + t;
      EncodeAppend(s[1..], t);
      calc {
        Encode(s + t);
        EncodeChar(s[0]) + Encode(s[1..] + t);
        EncodeChar(s[0]) + (Encode(s[1..]) + Encode(t));
        (EncodeChar(s[0]) + Encode(s[1..])) + Encode(t);
      }
    }
  }

  /** Text in the ASCII range is its own byte form, one byte per character. */
  lemma {:induction false} EncodeAscii(s: string)
    requires forall i :: 0 <= i < |s| ==> s[i] as int < 0x80
    ensures |Encode(s)| == |s|
    ensures forall i :: 0 <= i < |s| ==> Encode(s)[i] as int == s[i] as int
  {
    if s != [] {
      EncodeAscii(s[1..]);
    }
  }

  /** Every character takes one to four bytes. */
  lemma {:induction false} EncodeLength(s: string)
    ensures |s| <= |Encode(s)| <= 4 * |s|
  {
    if s != [] {
      EncodeLength(s[1..]);
    }
  }

  /** Text survives the trip through its bytes: `from_utf8(s.as_bytes()) == Ok(s)`. */
  lemma {:induction false} DecodeEncode(s: string)
    ensures Decode(Encode(s)) == Some(s)
  {
    if s != [] {
      var e := EncodeChar(s[0]);
      DecodeFirstEncodeChar(s[0], Encode(s[1..]));
      assert (e + Encode(s[1..]))[|e|..] == Encode(s[1..]);
      DecodeEncode(s[1..]);
      assert [s[0]] + s[1..] == s;
    }
  }

  /** A successful decode is the first character followed by the decode of what follows it. */
  lemma DecodeCons(b: Bytes)
    requires b != [] && Decode(b).Some?
    ensures DecodeFirst(b).Some?
    ensures var w := DecodeFirst(b).value.1;
            Decode(b[w..]).Some? && Decode(b).value == [DecodeFirst(b).value.0] + Decode(b[w..]).value
  {
  }

  /** Whatever decodes re-encodes to the very same bytes. */
  lemma {:induction false} EncodeDecode(b: Bytes)
    requires Decode(b).Some?
    ensures Encode(Decode(b).value) == b
    decreases |b|
  {
    if b != [] {
      DecodeCons(b);
      var (c, w) := DecodeFirst(b).value;
      var rest := Decode(b[w..]).value;
      EncodeCharDecodeFirst(b);
      EncodeDecode(b[w..]);
      var s := [c] + rest;
      assert s[0] == c && s[1..] == rest;
      assert Encode(s) == EncodeChar(c) + Encode(rest);
      assert b == b[..w] + b[w..];
    }
  }

  /** Distinct texts have distinct byte forms. */
  lemma EncodeInjective(s: string, t: string)
    requires Encode(s) == Encode(t)
    ensures s == t
  {
    DecodeEncode(s);
    DecodeEncode(t);
  }
}

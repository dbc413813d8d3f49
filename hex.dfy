/**
 * The gateway's `base64_encode`, which in fact writes each byte as two
 * lower-case hexadecimal digits, and the JSON envelope a Binary frame is
 * re-published in.
 */
module Hex {
  import opened Wrappers
  import opened Strings

  /** `format!("{:02x}", b)` for one nibble: `0`-`9`, then `a`-`f`. */
  function HexDigit(v: nat): (c: char)
    requires v < 16
    ensures IsHexDigit(c)
  {
    if v < 10 then ('0' as int + v) as char else ('a' as int + v - 10) as char
  }

  /** The characters `HexEncode` writes: `0`-`9` and lower-case `a`-`f`. */
  predicate IsHexDigit(c: char) {
    '0' <= c <= '9' || 'a' <= c <= 'f'
  }

  /** The value of a lower-case hex digit. */
  function DigitValue(c: char): (v: Option<nat>)
    ensures v.Some? <==> IsHexDigit(c)
    ensures v.Some? ==> v.value < 16 && HexDigit(v.value) == c
  {
    if '0' <= c <= '9' then Some(c as int - '0' as int)
    else if 'a' <= c <= 'f' then Some(c as int - 'a' as int + 10)
    else None
  }

  lemma {:induction false} DigitRoundTrip(v: nat)
    requires v < 16
    ensures DigitValue(HexDigit(v)) == Some(v)
  {
  }

  lemma {:induction false} Nibbles(b: byte)
    ensures b / 16 < 16 && 16 * (b / 16) + b % 16 == b
  {
  }

  /**
   * `data.iter().map(|b| format!("{:02x}", b)).collect::<String>()`:
   * two lower-case hex digits per byte, high nibble first.
   */
  function HexEncode(data: seq<byte>): (s: string)
    ensures |s| == 2 * |data|
    ensures forall i :: 0 <= i < |data| ==>
      s[2 * i] == HexDigit(data[i] / 16) && s[2 * i + 1] == HexDigit(data[i] % 16)
    ensures forall j :: 0 <= j < |s| ==> IsHexDigit(s[j])
  {
    if data == [] then ""
    else
      var rest := HexEncode(data[1..]);
      assert forall i :: 1 <= i < |data| ==> data[i] == data[1..][i - 1];
      [HexDigit(data[0] / 16), HexDigit(data[0] % 16)] + rest
  }

  /** Reads back what `HexEncode` writes; any other text is refused. */
  function HexDecode(s: string): (r: Option<seq<byte>>)
    ensures r.Some? ==> 2 * |r.value| == |s|
  {
    if s == [] then Some([])
    else if |s| == 1 then None
    else
      match (DigitValue(s[0]), DigitValue(s[1]), HexDecode(s[2..]))
      case (Some(hi), Some(lo), Some(rest)) => Some([16 * hi + lo] + rest)
      case _ => None
  }

  lemma {:induction false} DecodeCons(c0: char, c1: char, rest: string)
    requires DigitValue(c0).Some? && DigitValue(c1).Some? && HexDecode(rest).Some?
    ensures HexDecode([c0, c1] + rest) ==
      Some([16 * DigitValue(c0).value + DigitValue(c1).value] + HexDecode(rest).value)
  {
    var s := [c0, c1] + rest;
    assert s[0] == c0 && s[1] == c1 && s[2..] == rest;
  }

  /** Decoding an encoding gives back the bytes. */
  lemma {:induction false} DecodeEncode(data: seq<byte>)
    ensures HexDecode(HexEncode(data)) == Some(data)
  {
    if data != [] {
      DecodeEncode(data[1..]);
      DecodeEncodeStep(data);
    }
  }

  lemma {:induction false} DecodeEncodeStep(data: seq<byte>)
    requires data != [] && HexDecode(HexEncode(data[1..])) == Some(data[1..])
    ensures HexDecode(HexEncode(data)) == Some(data)
  {
    var b := data[0];
    var hi, lo := b / 16, b % 16;
    Nibbles(b);
    var c0, c1 := HexDigit(hi), HexDigit(lo);
    var rest := HexEncode(data[1..]);
    assert HexEncode(data) == [c0, c1] + rest;
    DigitRoundTrip(hi);
    DigitRoundTrip(lo);
    DecodeCons(c0, c1, rest);
    assert HexDecode(HexEncode(data)) == Some([16 * hi + lo] + data[1..]);
    assert [b] + data[1..] == data;
  }

  /** Whatever text decodes is exactly the encoding of what it decodes to. */
  lemma {:induction false} EncodeDecode(s: string)
    requires HexDecode(s).Some?
    ensures HexEncode(HexDecode(s).value) == s
  {
    if s != [] {
      var hi := DigitValue(s[0]).value;
      var lo := DigitValue(s[1]).value;
      EncodeDecode(s[2..]);
      var data := HexDecode(s).value;
      assert data[0] == 16 * hi + lo;
      assert data[1..] == HexDecode(s[2..]).value;
      assert data[0] / 16 == hi && data[0] % 16 == lo;
      assert s == [s[0], s[1]] + s[2..];
    }
  }

  /** Different byte strings never share an encoding. */
  lemma {:induction false} EncodeInjective(a: seq<byte>, b: seq<byte>)
    requires HexEncode(a) == HexEncode(b)
    ensures a == b
  {
    DecodeEncode(a);
    DecodeEncode(b);
  }

  const EnvelopeHead: string := "{\"type\":\"binary\",\"data\":\""
  const EnvelopeTail: string := "\"}"

  /** `format!("{{\"type\":\"binary\",\"data\":\"{}\"}}", encoded)` */
  function BinaryEnvelope(data: seq<byte>): (msg: string)
    ensures |msg| == |EnvelopeHead| + 2 * |data| + |EnvelopeTail|
    ensures msg[..|EnvelopeHead|] == EnvelopeHead
    ensures msg[|msg| - |EnvelopeTail|..] == EnvelopeTail
  {
    EnvelopeHead + HexEncode(data) + EnvelopeTail
  }

  /** What a subscriber would read back from an envelope. */
  function EnvelopePayload(msg: string): (r: Option<seq<byte>>)
  {
    if |msg| >= |EnvelopeHead| + |EnvelopeTail|
       && msg[..|EnvelopeHead|] == EnvelopeHead
       && msg[|msg| - |EnvelopeTail|..] == EnvelopeTail
    then HexDecode(msg[|EnvelopeHead|..|msg| - |EnvelopeTail|])
    else None
  }

  /** The bytes of a Binary frame survive the trip through the text channel. */
  lemma {:induction false} EnvelopeRoundTrip(data: seq<byte>)
    ensures EnvelopePayload(BinaryEnvelope(data)) == Some(data)
  {
    var msg := BinaryEnvelope(data);
    assert msg[|EnvelopeHead|..|msg| - |EnvelopeTail|] == HexEncode(data);
    DecodeEncode(data);
  }
}

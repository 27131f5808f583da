// Percent encoding of one path segment (emitted by ridl/emit/rust.py) and its
// inverse in runtime/rust/opto_sync.rs; sections 2.1 and 2.3 of RFC 3986.
module Percent {
  import opened Basics
  import Utf8

  /** The unreserved characters, by code. */
  predicate Unreserved(b: int) {
    0x41 <= b <= 0x5A || 0x61 <= b <= 0x7A || 0x30 <= b <= 0x39
    || b == 0x2D || b == 0x5F || b == 0x2E || b == 0x7E
  }

  const PERCENT: Byte := 0x25

  function UpperHex(d: nat): char
    requires d < 16
  {
    HEX_UPPER[d]
  }

  function EncodeByte(b: Byte): string {
    if Unreserved(b) then [b as char] else ['%', UpperHex(b / 16), UpperHex(b % 16)]
  }

  function EncodeBytes(bs: seq<Byte>): string {
    if bs == [] then "" else EncodeByte(bs[0]) + EncodeBytes(bs[1..])
  }

  function EncodeSegment(value: string): string {
    EncodeBytes(Utf8.Encode(value))
  }

  /** The emitted `encode_segment`. */
  method EncodeSegmentLoop(value: string) returns (out: string)
    ensures out == EncodeSegment(value)
  {
    out := "";
    var bytes := Utf8.Encode(value);
    var i := 0;
    while i < |bytes|
      invariant 0 <= i <= |bytes|
      invariant out + EncodeBytes(bytes[i..]) == EncodeBytes(bytes)
    {
      assert bytes[i..][0] == bytes[i] && bytes[i..][1..] == bytes[i + 1..];
      out := out + EncodeByte(bytes[i]);
      i := i + 1;
    }
    assert bytes[i..] == [];
  }

  function HexDigit(b: int): Option<nat> {
    if 0x30 <= b <= 0x39 then Some(b - 0x30)
    else if 0x61 <= b <= 0x66 then Some(b - 0x61 + 10)
    else if 0x41 <= b <= 0x46 then Some(b - 0x41 + 10)
    else None
  }

  function HexPair(hi: Byte, lo: Byte): (r: Option<Byte>) {
    match (HexDigit(hi), HexDigit(lo))
    case (Some(h), Some(l)) => if h < 16 && l < 16 then Some(h * 16 + l) else None
    case _ => None
  }

  /** Every percent marker with its two digits becomes the byte it spells. */
  function DecodeBytes(bs: seq<Byte>): Option<seq<Byte>> {
    if bs == [] then Some([])
    else if bs[0] == PERCENT then
      if |bs| < 3 then None
      else
        match (HexPair(bs[1], bs[2]), DecodeBytes(bs[3..]))
        case (Some(b), Some(rest)) => Some([b] + rest)
        case _ => None
    else
      match DecodeBytes(bs[1..])
      case Some(rest) => Some([bs[0]] + rest)
      case None => None
  }

  function PercentDecode(input: string): Option<string> {
    match DecodeBytes(Utf8.Encode(input))
    case None => None
    case Some(bytes) => Utf8.Decode(bytes)
  }

  function Joined(front: seq<Byte>, back: Option<seq<Byte>>): Option<seq<Byte>> {
    match back
    case None => None
    case Some(rest) => Some(front + rest)
  }

  /** `percent_decode`. */
  method PercentDecodeLoop(input: string) returns (r: Option<string>)
    ensures r == PercentDecode(input)
  {
    var bytes := Utf8.Encode(input);
    var out: seq<Byte> := [];
    var i := 0;
    assert bytes[0..] == bytes;
    assert DecodeBytes(bytes).Some? ==> [] + DecodeBytes(bytes).value == DecodeBytes(bytes).value;
    while i < |bytes|
      invariant 0 <= i <= |bytes|
      invariant DecodeBytes(bytes) == Joined(out, DecodeBytes(bytes[i..]))
    {
      ghost var left := bytes[i..];
      if bytes[i] == PERCENT {
        if i + 2 >= |bytes| {
          return None;
        }
        assert left[1] == bytes[i + 1] && left[2] == bytes[i + 2] && left[3..] == bytes[i + 3..];
        var b := HexPair(bytes[i + 1], bytes[i + 2]);
        if b.None? {
          return None;
        }
        JoinedTwice(out, b.value, DecodeBytes(bytes[i + 3..]));
        out := out + [b.value];
        i := i + 3;
      } else {
        assert left[1..] == bytes[i + 1..];
        JoinedTwice(out, bytes[i], DecodeBytes(bytes[i + 1..]));
        out := out + [bytes[i]];
        i := i + 1;
      }
    }
    assert bytes[i..] == [] && out + [] == out;
    r := Utf8.Decode(out);
  }

  lemma JoinedTwice(front: seq<Byte>, b: Byte, back: Option<seq<Byte>>)
    ensures Joined(front, Joined([b], back)) == Joined(front + [b], back)
  {
    if back.Some? {
      assert front + ([b] + back.value) == front + [b] + back.value;
    }
  }

  // ---------------------------------------------------------- round trip

  /** Visible ASCII that opens neither a segment nor a JSON object. */
  predicate SegmentChar(c: char) { 0x20 < c as int < 0x80 && c != '/' && c != '{' }

  lemma EncodedByteIsAscii(b: Byte)
    ensures forall i :: 0 <= i < |EncodeByte(b)| ==> SegmentChar(EncodeByte(b)[i])
  {}

  lemma {:induction false} EncodedIsAscii(bs: seq<Byte>)
    ensures forall i :: 0 <= i < |EncodeBytes(bs)| ==> SegmentChar(EncodeBytes(bs)[i])
  {
    if bs != [] {
      EncodedByteIsAscii(bs[0]);
      EncodedIsAscii(bs[1..]);
    }
  }

  lemma UpperHexReadsBack(d: nat)
    requires d < 16
    ensures HexDigit(UpperHex(d) as int) == Some(d)
  {}

  lemma DecodeOne(bytes: seq<Byte>, b: Byte, tail: seq<Byte>)
    requires if Unreserved(b) then bytes == [b] + tail
             else bytes == [PERCENT, UpperHex(b / 16) as int, UpperHex(b % 16) as int] + tail
    ensures DecodeBytes(bytes) == Joined([b], DecodeBytes(tail))
  {
    if Unreserved(b) {
      assert bytes[0] == b && bytes[1..] == tail;
    } else {
      UpperHexReadsBack(b / 16);
      UpperHexReadsBack(b % 16);
      assert bytes[3..] == tail;
      assert HexPair(bytes[1], bytes[2]) == Some(b);
    }
  }

  lemma EncodedByteBytes(b: Byte)
    ensures Utf8.Encode(EncodeByte(b))
      == if Unreserved(b) then [b] else [PERCENT, UpperHex(b / 16) as int, UpperHex(b % 16) as int]
  {
    EncodedByteIsAscii(b);
    Utf8.EncodeAscii(EncodeByte(b));
  }

  lemma EncodedByteReadsBack(b: Byte, rest: string)
    ensures DecodeBytes(Utf8.Encode(EncodeByte(b) + rest)) == Joined([b], DecodeBytes(Utf8.Encode(rest)))
  {
    Utf8.EncodeConcat(EncodeByte(b), rest);
    EncodedByteBytes(b);
    DecodeOne(Utf8.Encode(EncodeByte(b)) + Utf8.Encode(rest), b, Utf8.Encode(rest));
  }

  lemma {:induction false} EncodedBytesReadBack(bs: seq<Byte>)
    ensures DecodeBytes(Utf8.Encode(EncodeBytes(bs))) == Some(bs)
  {
    if bs != [] {
      EncodedByteReadsBack(bs[0], EncodeBytes(bs[1..]));
      EncodedBytesReadBack(bs[1..]);
      assert [bs[0]] + bs[1..] == bs;
    }
  }

  // Any value, with slashes, percent signs or nothing in it, survives.
  lemma SegmentReadsBack(value: string)
    ensures PercentDecode(EncodeSegment(value)) == Some(value)
    ensures '/' !in EncodeSegment(value) && '{' !in EncodeSegment(value)
  {
    EncodedBytesReadBack(Utf8.Encode(value));
    EncodedIsAscii(Utf8.Encode(value));
    Utf8.DecodeEncode(value);
  }
}

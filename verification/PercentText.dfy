// What percent-encoded text looks like (sections 2.1 and 2.3 of RFC 3986): which
// characters an emitted segment consists of, and which texts decode to what.
module PercentText {
  import opened Basics
  import opened Percent
  import Utf8

  // ------------------------------------------------------ encoded segments

  /** Letters, digits, hyphen, period, underscore and tilde. */
  predicate Kept(c: char) {
    'A' <= c <= 'Z' || 'a' <= c <= 'z' || '0' <= c <= '9' || c in ['-', '.', '_', '~']
  }

  predicate UpperDigit(c: char) { '0' <= c <= '9' || 'A' <= c <= 'F' }

  /** Kept characters, and percent signs with two upper-case digits. */
  ghost predicate Encoded(s: string) {
    s == ""
    || (Kept(s[0]) && Encoded(s[1..]))
    || (|s| >= 3 && s[0] == '%' && UpperDigit(s[1]) && UpperDigit(s[2]) && Encoded(s[3..]))
  }

  /** The triple of a byte: its two digits in base sixteen. */
  predicate TripleOf(t: string, b: Byte) {
    |t| == 3 && t[0] == '%' && t[1] == HEX_UPPER[b / 16] && t[2] == HEX_UPPER[b % 16]
  }

  predicate KeptByte(b: Byte) { b < 0x80 && Kept(b as char) }

  lemma ByteEncoded(b: Byte)
    ensures KeptByte(b) ==> EncodeByte(b) == [b as char]
    ensures !KeptByte(b) ==> TripleOf(EncodeByte(b), b)
  {}

  lemma {:induction false} EncodeBytesConcat(a: seq<Byte>, b: seq<Byte>)
    ensures EncodeBytes(a + b) == EncodeBytes(a) + EncodeBytes(b)
  {
    if a == [] {
      assert a + b == b;
    } else {
      assert (a + b)[0] == a[0] && (a + b)[1..] == a[1..] + b;
      EncodeBytesConcat(a[1..], b);
    }
  }

  // Wherever a byte of the value stands, it is written as itself if it is a
  // kept character and as its triple otherwise.
  lemma EveryByteEncoded(a: seq<Byte>, b: Byte, c: seq<Byte>) returns (t: string)
    ensures EncodeBytes(a + [b] + c) == EncodeBytes(a) + t + EncodeBytes(c)
    ensures if KeptByte(b) then t == [b as char] else TripleOf(t, b)
  {
    t := EncodeByte(b);
    ByteEncoded(b);
    EncodeBytesConcat(a + [b], c);
    EncodeBytesConcat(a, [b]);
    assert [b][1..] == [] && EncodeBytes([b]) == t + "";
  }

  lemma UpperDigits(d: nat)
    requires d < 16
    ensures UpperDigit(HEX_UPPER[d])
  {}

  lemma {:induction false} BytesEncoded(bs: seq<Byte>)
    ensures Encoded(EncodeBytes(bs))
  {
    if bs != [] {
      var t, rest := EncodeByte(bs[0]), EncodeBytes(bs[1..]);
      ByteEncoded(bs[0]);
      BytesEncoded(bs[1..]);
      UpperDigits(bs[0] / 16);
      UpperDigits(bs[0] % 16);
      assert (t + rest)[|t|..] == rest;
    }
  }

  lemma {:induction false} KeptUnchanged(bs: seq<Byte>, s: string)
    requires |bs| == |s| && forall i :: 0 <= i < |s| ==> KeptByte(bs[i]) && bs[i] == s[i] as int
    ensures EncodeBytes(bs) == s
  {
    if bs != [] {
      ByteEncoded(bs[0]);
      KeptUnchanged(bs[1..], s[1..]);
      assert [s[0]] + s[1..] == s;
    }
  }

  // A segment consists of kept characters and triples, and a text of kept
  // characters alone is its own segment.
  lemma SegmentIsEncoded(value: string)
    ensures Encoded(EncodeSegment(value))
    ensures (forall i :: 0 <= i < |value| ==> Kept(value[i])) ==> EncodeSegment(value) == value
  {
    BytesEncoded(Utf8.Encode(value));
    if forall i :: 0 <= i < |value| ==> Kept(value[i]) {
      Utf8.EncodeAscii(value);
      KeptUnchanged(Utf8.Encode(value), value);
    }
  }

  // ------------------------------------------------------------- decoding

  predicate DigitByte(x: Byte, d: int) {
    0 <= d < 16 && (x == HEX_LOWER[d] as int || x == HEX_UPPER[d] as int)
  }

  /** The bytes that a text of bytes stands for: every percent sign begins a
      triple with digits of either case, everything else is itself. */
  ghost predicate StandsFor(text: seq<Byte>, bytes: seq<Byte>)
    decreases |bytes|
  {
    if bytes == [] then text == []
    else if text == [] then false
    else if text[0] != '%' as int then text[0] == bytes[0] && StandsFor(text[1..], bytes[1..])
    else
      && |text| >= 3 && DigitByte(text[1], bytes[0] / 16) && DigitByte(text[2], bytes[0] % 16)
      && StandsFor(text[3..], bytes[1..])
  }

  lemma DigitRead(x: Byte, d: nat)
    ensures HexDigit(x) == Some(d) <==> DigitByte(x, d)
  {
    if d < 10 {
      assert HEX_LOWER[d] as int == 0x30 + d && HEX_UPPER[d] == HEX_LOWER[d];
    } else if d < 16 {
      assert HEX_LOWER[d] as int == 0x61 + (d - 10) && HEX_UPPER[d] as int == 0x41 + (d - 10);
    }
  }

  lemma PairRead(hi: Byte, lo: Byte, b: Byte)
    ensures HexPair(hi, lo) == Some(b) <==> DigitByte(hi, b / 16) && DigitByte(lo, b % 16)
  {
    DigitRead(hi, b / 16);
    DigitRead(lo, b % 16);
    if HexDigit(hi).Some? && HexDigit(lo).Some? {
      TwoDigits(HexDigit(hi).value, HexDigit(lo).value, b);
    }
  }

  lemma TwoDigits(h: nat, l: nat, b: Byte)
    requires l < 16
    ensures h * 16 + l == b <==> b / 16 == h && b % 16 == l
  {}

  lemma {:induction false} DecodeIffStandsFor(text: seq<Byte>, bytes: seq<Byte>)
    ensures DecodeBytes(text) == Some(bytes) <==> StandsFor(text, bytes)
    decreases |text|
  {
    if text == [] {
    } else if text[0] != PERCENT {
      if bytes != [] {
        DecodeIffStandsFor(text[1..], bytes[1..]);
        assert bytes == [bytes[0]] + bytes[1..];
      }
    } else if |text| >= 3 && bytes != [] {
      PairRead(text[1], text[2], bytes[0]);
      DecodeIffStandsFor(text[3..], bytes[1..]);
      assert bytes == [bytes[0]] + bytes[1..];
    }
  }

  /** The text is an encoding of this value. */
  ghost predicate Represents(text: string, value: string) {
    StandsFor(Utf8.Encode(text), Utf8.Encode(value))
  }

  // Decoding gives the value a text stands for, and fails exactly if it stands
  // for none: a percent sign without two digits, or bytes that are not UTF-8.
  lemma PercentDecodeIff(text: string, value: string)
    ensures PercentDecode(text) == Some(value) <==> Represents(text, value)
  {
    DecodeIffStandsFor(Utf8.Encode(text), Utf8.Encode(value));
    Utf8.DecodeEncode(value);
    if PercentDecode(text) == Some(value) {
      Utf8.EncodeDecode(DecodeBytes(Utf8.Encode(text)).value);
    }
  }
}

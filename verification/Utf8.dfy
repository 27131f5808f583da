// UTF-8 as Rust's `String::into_bytes` writes it and `String::from_utf8`
// accepts it (section 3 of RFC 3629): shortest form only, no surrogates.
module Utf8 {
  import opened Basics

  // The code point spelled by a lead byte and its continuation bytes.
  function Code2(b0: int, b1: int): int { (b0 - 0xC0) * 64 + (b1 - 0x80) }

  function Code3(b0: int, b1: int, b2: int): int {
    (b0 - 0xE0) * 4096 + (b1 - 0x80) * 64 + (b2 - 0x80)
  }

  function Code4(b0: int, b1: int, b2: int, b3: int): int {
    (b0 - 0xF0) * 262144 + (b1 - 0x80) * 4096 + (b2 - 0x80) * 64 + (b3 - 0x80)
  }

  function EncodeChar(c: char): (b: seq<Byte>)
    ensures 1 <= |b| <= 4
  {
    var n := c as int;
    if n < 0x80 then [n]
    else if n < 0x800 then [0xC0 + n / 64, 0x80 + n % 64]
    else if n < 0x10000 then [0xE0 + n / 4096, 0x80 + n / 64 % 64, 0x80 + n % 64]
    else [0xF0 + n / 262144, 0x80 + n / 4096 % 64, 0x80 + n / 64 % 64, 0x80 + n % 64]
  }

  function Encode(s: string): seq<Byte> {
    if s == [] then [] else EncodeChar(s[0]) + Encode(s[1..])
  }

  predicate Continuation(b: int) {
    0x80 <= b < 0xC0
  }

  predicate IsScalar(n: int) {
    0 <= n < 0xD800 || 0xE000 <= n < 0x110000
  }

  /** The first character of `b` with the number of bytes it takes. */
  function DecodeChar(b: seq<Byte>): (r: Option<(char, nat)>)
    ensures r.Some? ==> 1 <= r.value.1 <= |b|
  {
    if |b| >= 1 && b[0] < 0x80 then
      Some((b[0] as char, 1))
    else if |b| >= 2 && 0xC2 <= b[0] < 0xE0 && Continuation(b[1]) then
      Some((Code2(b[0], b[1]) as char, 2))
    else if |b| >= 3 && 0xE0 <= b[0] < 0xF0 && Continuation(b[1]) && Continuation(b[2]) then
      var n := Code3(b[0], b[1], b[2]);
      if n >= 0x800 && IsScalar(n) then Some((n as char, 3)) else None
    else if |b| >= 4 && 0xF0 <= b[0] < 0xF5
            && Continuation(b[1]) && Continuation(b[2]) && Continuation(b[3]) then
      var n := Code4(b[0], b[1], b[2], b[3]);
      if n >= 0x10000 && IsScalar(n) then Some((n as char, 4)) else None
    else None
  }

  function Decode(b: seq<Byte>): Option<string> {
    if b == [] then Some("")
    else
      match DecodeChar(b)
      case None => None
      case Some((c, n)) =>
        match Decode(b[n..])
        case None => None
        case Some(rest) => Some([c] + rest)
  }

  lemma Digits64(n: nat)
    ensures n == n / 64 * 64 + n % 64
    ensures n / 64 == n / 4096 * 64 + n / 64 % 64
    ensures n / 4096 == n / 262144 * 64 + n / 4096 % 64
  {}

  lemma DecodeCharEncodeChar(c: char, tail: seq<Byte>)
    ensures DecodeChar(EncodeChar(c) + tail) == Some((c, |EncodeChar(c)|))
  {
    var e := EncodeChar(c);
    var b := e + tail;
    var n := c as int;
    Digits64(n);
    assert forall i :: 0 <= i < |e| ==> b[i] == e[i];
    if n < 0x80 {
    } else if n < 0x800 {
      assert Code2(b[0], b[1]) == n;
    } else if n < 0x10000 {
      assert Code3(b[0], b[1], b[2]) == n;
    } else {
      assert Code4(b[0], b[1], b[2], b[3]) == n;
    }
  }

  lemma {:induction false} DecodeEncode(s: string)
    ensures Decode(Encode(s)) == Some(s)
  {
    if s != [] {
      var e, t := EncodeChar(s[0]), Encode(s[1..]);
      DecodeCharEncodeChar(s[0], t);
      DropPrefix(e, t);
      DecodeEncode(s[1..]);
      assert Encode(s) == e + t;
      assert [s[0]] + s[1..] == s;
    }
  }

  // The digits of a code point in base 64.
  lemma Code3Digits(a: int, b: int, c: int)
    requires 0 <= a && Continuation(b) && Continuation(c)
    ensures var n := Code3(0xE0 + a, b, c);
      n / 4096 == a && n / 64 % 64 == b - 0x80 && n % 64 == c - 0x80
  {
    var n := Code3(0xE0 + a, b, c);
    assert n / 64 == a * 64 + (b - 0x80);
  }

  lemma Code4Digits(a: int, b: int, c: int, d: int)
    requires 0 <= a && Continuation(b) && Continuation(c) && Continuation(d)
    ensures var n := Code4(0xF0 + a, b, c, d);
      n / 262144 == a && n / 4096 % 64 == b - 0x80 && n / 64 % 64 == c - 0x80 && n % 64 == d - 0x80
  {
    var n := Code4(0xF0 + a, b, c, d);
    assert n / 64 == a * 4096 + (b - 0x80) * 64 + (c - 0x80);
    assert n / 4096 == a * 64 + (b - 0x80);
  }

  lemma EncodeCharDecodeChar(b: seq<Byte>)
    requires DecodeChar(b).Some?
    ensures var (c, n) := DecodeChar(b).value; EncodeChar(c) == b[..n]
  {
    var (c, n) := DecodeChar(b).value;
    if n == 1 {
      assert b[..n] == [b[0]];
    } else if n == 2 {
      assert b[..n] == [b[0], b[1]];
    } else if n == 3 {
      Code3Digits(b[0] - 0xE0, b[1], b[2]);
      assert b[..n] == [b[0], b[1], b[2]];
    } else {
      Code4Digits(b[0] - 0xF0, b[1], b[2], b[3]);
      assert b[..n] == [b[0], b[1], b[2], b[3]];
    }
  }

  lemma EncodeOne(b: seq<Byte>, n: nat, c: char, rest: string)
    requires n <= |b| && EncodeChar(c) == b[..n] && Encode(rest) == b[n..]
    ensures Encode([c] + rest) == b
  {
    assert ([c] + rest)[1..] == rest;
    assert b == b[..n] + b[n..];
  }

  // Decoding accepts exactly the encodings: no byte string is accepted that
  // does not re-encode to itself.
  lemma {:induction false} EncodeDecode(b: seq<Byte>)
    requires Decode(b).Some?
    ensures Encode(Decode(b).value) == b
  {
    if b != [] {
      var (c, n) := DecodeChar(b).value;
      EncodeCharDecodeChar(b);
      EncodeDecode(b[n..]);
      EncodeOne(b, n, c, Decode(b[n..]).value);
    }
  }

  lemma EncodeInjective(a: string, b: string)
    requires Encode(a) == Encode(b)
    ensures a == b
  {
    DecodeEncode(a);
    DecodeEncode(b);
  }

  lemma {:induction false} EncodeConcat(a: string, b: string)
    ensures Encode(a + b) == Encode(a) + Encode(b)
  {
    if a == [] {
      assert a + b == b;
    } else {
      assert (a + b)[0] == a[0] && (a + b)[1..] == a[1..] + b;
      EncodeConcat(a[1..], b);
    }
  }

  // Text made of ASCII characters encodes to one byte a character.
  lemma {:induction false} EncodeAscii(s: string)
    requires forall i :: 0 <= i < |s| ==> s[i] as int < 0x80
    ensures |Encode(s)| == |s|
    ensures forall i :: 0 <= i < |s| ==> Encode(s)[i] == s[i] as int
  {
    if s != [] {
      assert EncodeChar(s[0]) == [s[0] as int];
      EncodeAscii(s[1..]);
    }
  }
}

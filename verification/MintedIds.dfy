// Minted record ids: FNV-1a/64 over key, path and body (runtime/rust/opto_sync.rs).
module MintedIds {
  import opened Basics
  import Utf8

  const WORD: nat := 0x1_0000_0000_0000_0000
  const OFFSET_BASIS: nat := 0xcbf29ce484222325
  const PRIME: nat := 0x00000100000001b3
  // PRIME * PRIME_INVERSE == 1 modulo WORD.
  const PRIME_INVERSE: nat := 0xce965057aff6957b

  /** Bitwise exclusive or of two natural numbers. */
  function Xor(x: nat, y: nat): nat {
    if x == 0 && y == 0 then 0 else 2 * Xor(x / 2, y / 2) + (x + y) % 2
  }

  function Pow2(n: nat): (p: nat)
    ensures p > 0
  {
    if n == 0 then 1 else 2 * Pow2(n - 1)
  }

  /** One step: mix a byte in, then multiply, wrapping at 64 bits. */
  function Step(hash: nat, b: nat): nat { Xor(hash, b) * PRIME % WORD }

  function Hash(hash: nat, bytes: seq<Byte>): nat
    decreases |bytes|
  {
    if bytes == [] then hash else Hash(Step(hash, bytes[0]), bytes[1..])
  }

  // ------------------------------------------- exclusive or and the prime

  lemma Halves(r: nat, h: nat, x: nat, y: nat)
    requires r == 2 * h + (x + y) % 2
    ensures r / 2 == h && (r + y) % 2 == x % 2
  {}

  lemma {:induction false} XorCancels(x: nat, y: nat)
    ensures Xor(Xor(x, y), y) == x
  {
    if x != 0 || y != 0 {
      XorCancels(x / 2, y / 2);
      var r, h := Xor(x, y), Xor(x / 2, y / 2);
      Halves(r, h, x, y);
      assert Xor(r, y) == 2 * Xor(h, y / 2) + x % 2;
    }
  }

  lemma {:induction false} XorCommutes(x: nat, y: nat)
    ensures Xor(x, y) == Xor(y, x)
  {
    if x != 0 || y != 0 { XorCommutes(x / 2, y / 2); }
  }

  lemma {:induction false} XorStaysInBits(x: nat, y: nat, n: nat)
    requires x < Pow2(n) && y < Pow2(n)
    ensures Xor(x, y) < Pow2(n)
  {
    if n > 0 { XorStaysInBits(x / 2, y / 2, n - 1); }
  }

  lemma WordHas64Bits()
    ensures Pow2(64) == WORD
  {
    assert Pow2(8) == 0x100;
    assert Pow2(16) == 0x1_0000;
    assert Pow2(24) == 0x100_0000;
    assert Pow2(32) == 0x1_0000_0000;
    assert Pow2(40) == 0x100_0000_0000;
    assert Pow2(48) == 0x1_0000_0000_0000;
    assert Pow2(56) == 0x100_0000_0000_0000;
  }

  lemma XorStaysInWord(x: nat, y: nat)
    requires x < WORD && y < WORD
    ensures Xor(x, y) < WORD
  {
    WordHas64Bits();
    XorStaysInBits(x, y, 64);
  }

  lemma Distribute(m: int, d: int)
    ensures m * (d - 1) == m * d - m
    ensures m * (d + 1) == m * d + m
  {}

  lemma MultiplesAreFar(m: int, d: int)
    requires m > 0 && d != 0
    ensures m * d >= m || m * d <= -m
  {
    if d > 0 {
      MultiplesAreFarUp(m, d);
    } else {
      MultiplesAreFarUp(m, -d);
      assert m * d == -(m * -d);
    }
  }

  lemma {:induction false} MultiplesAreFarUp(m: int, d: int)
    requires m > 0 && d > 0
    ensures m * d >= m
  {
    if d > 1 {
      MultiplesAreFarUp(m, d - 1);
      Distribute(m, d);
    }
  }

  lemma WholeTurnsVanish(x: nat, m: nat, turns: int)
    requires x < m
    ensures (x + m * turns) % m == x
  {
    var y := x + m * turns;
    var q, r := y / m, y % m;
    assert y == m * q + r;
    assert m * (turns - q) == m * turns - m * q == r - x;
    if turns != q { MultiplesAreFar(m, turns - q); }
  }

  // Modulo m, multiplying by p and then by an inverse q of p gives x back.
  lemma InverseCancels(x: nat, p: nat, q: nat, m: nat, turns: nat)
    requires x < m && p * q == 1 + m * turns
    ensures (x * p % m) * q % m == x
  {
    var k, r := x * p / m, x * p % m;
    assert r == x * p - m * k;
    calc {
      r * q;
      (x * p - m * k) * q;
      (x * p) * q - (m * k) * q;
      { assert (x * p) * q == x * (p * q); assert (m * k) * q == m * (k * q); }
      x * (p * q) - m * (k * q);
      x * (1 + m * turns) - m * (k * q);
      { assert x * (1 + m * turns) == x + m * (x * turns); }
      x + m * (x * turns) - m * (k * q);
      x + m * (x * turns - k * q);
    }
    WholeTurnsVanish(x, m, x * turns - k * q);
  }

  // Multiplying by the prime and then by its inverse gives the word back.
  lemma PrimeCancels(x: nat)
    requires x < WORD
    ensures (x * PRIME % WORD) * PRIME_INVERSE % WORD == x
    ensures (x * PRIME_INVERSE % WORD) * PRIME % WORD == x
  {
    var turns := PRIME * PRIME_INVERSE / WORD;
    InverseCancels(x, PRIME, PRIME_INVERSE, WORD, turns);
    InverseCancels(x, PRIME_INVERSE, PRIME, WORD, turns);
  }

  // ------------------------------------------------ what a step keeps apart

  /** The state before a step, from the state after it. */
  function Unstep(hash: nat, b: nat): nat { Xor(hash * PRIME_INVERSE % WORD, b) }

  // For a fixed byte a step is a bijection of the 64-bit state.
  lemma StepIsBijective(hash: nat, b: Byte)
    requires hash < WORD
    ensures Step(hash, b) < WORD && Unstep(hash, b) < WORD
    ensures Unstep(Step(hash, b), b) == hash
    ensures Step(Unstep(hash, b), b) == hash
  {
    XorStaysInWord(hash, b);
    PrimeCancels(Xor(hash, b));
    XorCancels(hash, b);
    var before := hash * PRIME_INVERSE % WORD;
    XorStaysInWord(before, b);
    XorCancels(before, b);
    PrimeCancels(hash);
  }

  // From one state, different bytes lead to different states.
  lemma StepSeparatesBytes(hash: nat, a: Byte, b: Byte)
    requires hash < WORD && Step(hash, a) == Step(hash, b)
    ensures a == b
  {
    XorStaysInWord(hash, a);
    XorStaysInWord(hash, b);
    PrimeCancels(Xor(hash, a));
    PrimeCancels(Xor(hash, b));
    XorCommutes(hash, a);
    XorCommutes(hash, b);
    XorCancels(a, hash);
    XorCancels(b, hash);
  }

  lemma {:induction false} HashSeparatesStates(x: nat, y: nat, bytes: seq<Byte>)
    requires x < WORD && y < WORD && x != y
    ensures Hash(x, bytes) != Hash(y, bytes)
    decreases |bytes|
  {
    if bytes != [] {
      StepIsBijective(x, bytes[0]);
      StepIsBijective(y, bytes[0]);
      HashSeparatesStates(Step(x, bytes[0]), Step(y, bytes[0]), bytes[1..]);
    }
  }

  ghost predicate DifferAtOne(a: seq<Byte>, b: seq<Byte>, i: nat) {
    && |a| == |b| && i < |a| && a[i] != b[i]
    && forall j :: 0 <= j < |a| && j != i ==> a[j] == b[j]
  }

  // Inputs of one length that differ in exactly one byte never collide.
  lemma {:induction false} NearMissesSeparate(hash: nat, a: seq<Byte>, b: seq<Byte>, i: nat)
    requires hash < WORD && DifferAtOne(a, b, i)
    ensures Hash(hash, a) != Hash(hash, b)
    decreases |a|
  {
    StepIsBijective(hash, a[0]);
    StepIsBijective(hash, b[0]);
    if i == 0 {
      assert a[1..] == b[1..];
      if Step(hash, a[0]) == Step(hash, b[0]) {
        StepSeparatesBytes(hash, a[0], b[0]);
      }
      HashSeparatesStates(Step(hash, a[0]), Step(hash, b[0]), a[1..]);
    } else {
      assert DifferAtOne(a[1..], b[1..], i - 1);
      NearMissesSeparate(Step(hash, a[0]), a[1..], b[1..], i - 1);
    }
  }

  lemma {:induction false} HashIsAWord(hash: nat, bytes: seq<Byte>)
    requires hash < WORD
    ensures Hash(hash, bytes) < WORD
    decreases |bytes|
  {
    if bytes != [] {
      StepIsBijective(hash, bytes[0]);
      HashIsAWord(Step(hash, bytes[0]), bytes[1..]);
    }
  }

  lemma {:induction false} XorZero(x: nat)
    ensures Xor(x, 0) == x
  {
    if x != 0 {
      XorZero(x / 2);
    }
  }

  lemma XorStep(x: nat, y: nat, r: nat)
    requires x != 0 && Xor(x / 2, y / 2) == r
    ensures Xor(x, y) == 2 * r + (x + y) % 2
  {}

  lemma BasisXorLetter()
    ensures Xor(OFFSET_BASIS, 0x61) == 0xcbf29ce484222344
  {
    XorZero(0x197e539c9084446);
    XorStep(0x32fca739210888c, 0x1, 0x197e539c9084446);
    XorStep(0x65f94e724211119, 0x3, 0x32fca739210888d);
    XorStep(0xcbf29ce48422232, 0x6, 0x65f94e72421111a);
    XorStep(0x197e539c90844464, 0xc, 0xcbf29ce48422234);
    XorStep(0x32fca739210888c9, 0x18, 0x197e539c90844468);
    XorStep(0x65f94e7242111192, 0x30, 0x32fca739210888d1);
    XorStep(0xcbf29ce484222325, 0x61, 0x65f94e72421111a2);
  }

  lemma Remainder(product: nat, quotient: nat, rest: nat)
    requires product == quotient * WORD + rest && rest < WORD
    ensures product % WORD == rest
  {}

  lemma LetterStep(mixed: nat)
    requires mixed == 0xcbf29ce484222344
    ensures mixed * PRIME % WORD == 0xaf63dc4c8601ec8c
  {
    Remainder(mixed * PRIME, 875948729822, 0xaf63dc4c8601ec8c);
  }

  lemma OneByte(hash: nat, bytes: seq<Byte>)
    requires |bytes| == 1
    ensures Hash(hash, bytes) == Step(hash, bytes[0])
  {
    assert bytes[1..] == [];
  }

  // The published FNV-1a/64 values of the empty text and of the letter a.
  lemma KnownHashes(letter: seq<Byte>)
    requires letter == [0x61]
    ensures Hash(OFFSET_BASIS, []) == 0xcbf29ce484222325
    ensures Hash(OFFSET_BASIS, letter) == 0xaf63dc4c8601ec8c
  {
    OneByte(OFFSET_BASIS, letter);
    BasisXorLetter();
    LetterStep(Xor(OFFSET_BASIS, 0x61));
  }

  // ------------------------------------------------------------ rendering

  /** The number written with `digits` lower-case hex digits, most significant
      first (`{:016x}` for sixteen). */
  function Hex(value: nat, digits: nat): (s: string)
    ensures |s| == digits
  {
    if digits == 0 then "" else Hex(value / 16, digits - 1) + [HEX_LOWER[value % 16]]
  }

  function DigitIn(c: char): nat {
    if '0' <= c <= '9' then c as int - '0' as int
    else if 'a' <= c <= 'f' then c as int - 'a' as int + 10
    else 0
  }

  /** The number that lower-case digits spell, most significant first. */
  function NumberIn(s: string): nat {
    if s == "" then 0 else DigitIn(s[0]) * Pow16(|s| - 1) + NumberIn(s[1..])
  }

  function Pow16(digits: nat): (r: nat)
    ensures r > 0
  {
    if digits == 0 then 1 else 16 * Pow16(digits - 1)
  }

  lemma HexDigitsDiffer(a: nat, b: nat)
    requires a < 16 && b < 16 && HEX_LOWER[a] == HEX_LOWER[b]
    ensures a == b
  {}

  // Numbers that fit the digits have different hex forms.
  lemma {:induction false} HexSeparates(x: nat, y: nat, digits: nat)
    requires x < Pow16(digits) && y < Pow16(digits)
    requires Hex(x, digits) == Hex(y, digits)
    ensures x == y
  {
    if digits > 0 {
      var a, b := Hex(x, digits), Hex(y, digits);
      assert a[..digits - 1] == Hex(x / 16, digits - 1) && b[..digits - 1] == Hex(y / 16, digits - 1);
      assert a[digits - 1] == HEX_LOWER[x % 16] && b[digits - 1] == HEX_LOWER[y % 16];
      HexDigitsDiffer(x % 16, y % 16);
      HexSeparates(x / 16, y / 16, digits - 1);
    }
  }

  lemma {:induction false} NumberSnoc(s: string, c: char)
    ensures NumberIn(s + [c]) == NumberIn(s) * 16 + DigitIn(c)
  {
    if s == "" {
      assert s + [c] == [c] && [c][1..] == "" && NumberIn("") == 0 && Pow16(0) == 1;
      assert NumberIn([c]) == DigitIn(c) * 1 + 0;
    } else {
      var t := s + [c];
      assert t[0] == s[0] && t[1..] == s[1..] + [c];
      NumberSnoc(s[1..], c);
      assert Pow16(|s|) == 16 * Pow16(|s| - 1);
      Shifted(DigitIn(s[0]), Pow16(|s| - 1), NumberIn(s[1..]), DigitIn(c));
    }
  }

  lemma Shifted(d: nat, p: nat, rest: nat, last: nat)
    ensures d * (16 * p) + (rest * 16 + last) == (d * p + rest) * 16 + last
  {
    assert d * (16 * p) == (d * p) * 16;
  }

  // The digits written for a number that fits them spell that number.
  lemma {:induction false} HexReadsBack(value: nat, digits: nat)
    requires value < Pow16(digits)
    ensures NumberIn(Hex(value, digits)) == value
    ensures forall i :: 0 <= i < digits ==> Hex(value, digits)[i] in HEX_LOWER
  {
    if digits > 0 {
      var c := HEX_LOWER[value % 16];
      HexReadsBack(value / 16, digits - 1);
      NumberSnoc(Hex(value / 16, digits - 1), c);
      LowerDigit(value % 16);
    }
  }

  lemma LowerDigit(d: nat)
    requires d < 16
    ensures DigitIn(HEX_LOWER[d]) == d
  {}

  lemma SixteenDigitsHoldAWord()
    ensures Pow16(16) == 0x1_0000_0000_0000_0000
  {
    assert Pow16(4) == 0x1_0000;
    assert Pow16(8) == 0x1_0000_0000;
    assert Pow16(12) == 0x1_0000_0000_0000;
  }

  // ------------------------------------------------------------------ ids

  /** The body's part of the material. */
  function TextOf(body: Option<string>): string {
    if body.Some? then body.value else ""
  }

  /** The bytes an id is derived from. */
  function Material(key: string, path: string, body: Option<string>): seq<Byte> {
    Utf8.Encode(key) + Utf8.Encode(path) + Utf8.Encode(TextOf(body))
  }

  function MintId(key: string, path: string, body: Option<string>): string {
    key + "-" + Hex(Hash(OFFSET_BASIS, Material(key, path, body)), 16)
  }

  /** `mint_id`. */
  method MintIdLoop(key: string, path: string, body: Option<string>) returns (id: string)
    ensures id == MintId(key, path, body)
    ensures id[..|key|] == key && |id| == |key| + 17 && id[|key|] == '-'
    ensures NumberIn(id[|key| + 1..]) == Hash(OFFSET_BASIS, Material(key, path, body))
  {
    var hash: nat := OFFSET_BASIS;
    var text := if body.Some? then body.value else "";
    var bytes := Utf8.Encode(key) + Utf8.Encode(path) + Utf8.Encode(text);
    var i := 0;
    assert bytes[0..] == bytes;
    while i < |bytes|
      invariant 0 <= i <= |bytes|
      invariant Hash(hash, bytes[i..]) == Hash(OFFSET_BASIS, bytes)
    {
      assert bytes[i..][1..] == bytes[i + 1..];
      hash := Xor(hash, bytes[i]);
      hash := hash * PRIME % WORD;
      i := i + 1;
    }
    id := key + "-" + Hex(hash, 16);
    SixteenDigitsHoldAWord();
    HashIsAWord(OFFSET_BASIS, bytes);
    HexReadsBack(hash, 16);
    assert id[|key| + 1..] == Hex(hash, 16);
  }

  // Two calls of one operation whose material has the same length and differs
  // in exactly one byte get different record ids.
  lemma NearMissIdsDiffer(key: string, path: string, body: Option<string>, path': string, body': Option<string>, i: nat)
    requires DifferAtOne(Material(key, path, body), Material(key, path', body'), i)
    ensures MintId(key, path, body) != MintId(key, path', body')
  {
    var m, m' := Material(key, path, body), Material(key, path', body');
    var a, b := Hash(OFFSET_BASIS, m), Hash(OFFSET_BASIS, m');
    NearMissesSeparate(OFFSET_BASIS, m, m', i);
    HashIsAWord(OFFSET_BASIS, m);
    HashIsAWord(OFFSET_BASIS, m');
    SixteenDigitsHoldAWord();
    if Hex(a, 16) == Hex(b, 16) { HexSeparates(a, b, 16); }
    assert MintId(key, path, body)[|key| + 1..] == Hex(a, 16);
    assert MintId(key, path', body')[|key| + 1..] == Hex(b, 16);
  }

  lemma MaterialRunsTogether(key: string, path: string, body: Option<string>)
    ensures Material(key, path, body) == Utf8.Encode(key) + Utf8.Encode(path + TextOf(body))
  {
    Utf8.EncodeConcat(path, TextOf(body));
    Regroup(Utf8.Encode(key), Utf8.Encode(path), Utf8.Encode(TextOf(body)));
  }

  lemma Regroup(a: seq<Byte>, b: seq<Byte>, c: seq<Byte>)
    ensures a + b + c == a + (b + c)
  {}

  lemma SameTail(front: seq<Byte>, a: seq<Byte>, b: seq<Byte>)
    ensures front + a == front + b <==> a == b
  {
    assert (front + a)[|front|..] == a && (front + b)[|front|..] == b;
  }

  // What the id does not separate: two requests of one operation have the same
  // material, and so the same id, exactly if path and body text run together
  // to the same text. An absent body and an empty one are alike.
  lemma BoundaryIsNotMarked(key: string, path: string, body: Option<string>, path': string, body': Option<string>)
    ensures Material(key, path, body) == Material(key, path', body')
      <==> path + TextOf(body) == path' + TextOf(body')
    ensures path + TextOf(body) == path' + TextOf(body') ==> MintId(key, path, body) == MintId(key, path', body')
  {
    var a, b := path + TextOf(body), path' + TextOf(body');
    MaterialRunsTogether(key, path, body);
    MaterialRunsTogether(key, path', body');
    SameTail(Utf8.Encode(key), Utf8.Encode(a), Utf8.Encode(b));
    if Utf8.Encode(a) == Utf8.Encode(b) {
      Utf8.EncodeInjective(a, b);
    }
  }
}

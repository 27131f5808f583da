// How strings are spelled (section 7 of RFC 8259), and that the parser reads
// exactly these spellings.
module JsonText {
  import opened Basics
  import opened Json

  // --------------------------------------------------------- characters

  /** A hexadecimal digit of either case. */
  predicate DigitSpells(c: char, d: int) {
    0 <= d < 16 && (c == HEX_LOWER[d] || c == HEX_UPPER[d])
  }

  /** Four digits from position `i` on, most significant first. */
  predicate FourAt(t: string, i: nat, n: int) {
    && i + 4 <= |t|
    && DigitSpells(t[i], n / 4096) && DigitSpells(t[i + 1], n / 256 % 16)
    && DigitSpells(t[i + 2], n / 16 % 16) && DigitSpells(t[i + 3], n % 16)
  }

  predicate UnicodeAt(t: string, i: nat, n: int) {
    i + 6 <= |t| && t[i] == '\\' && t[i + 1] == 'u' && FourAt(t, i + 2, n)
  }

  // The short escapes: a letter and the character it stands for.
  const SHORT: seq<(char, char)> :=
    [('"', '"'), ('\\', '\\'), ('/', '/'), ('b', 8 as char), ('f', 12 as char), ('n', 10 as char),
     ('r', 13 as char), ('t', 9 as char)]

  function HighSurrogate(c: char): int { 0xD800 + (c as int - 0x1_0000) / 0x400 }

  function LowSurrogate(c: char): int { 0xDC00 + (c as int - 0x1_0000) % 0x400 }

  /** The character itself, unless it has to be escaped. */
  predicate Plainly(t: string, c: char) {
    t == [c] && c != '"' && c != '\\' && c as int >= 0x20
  }

  predicate Shortly(t: string, c: char) {
    |t| == 2 && t[0] == '\\' && (t[1], c) in SHORT
  }

  /** One escape of four digits below U+10000, a surrogate pair of them above. */
  predicate ByNumber(t: string, c: char) {
    if c as int < 0x1_0000 then |t| == 6 && UnicodeAt(t, 0, c as int)
    else |t| == 12 && UnicodeAt(t, 0, HighSurrogate(c)) && UnicodeAt(t, 6, LowSurrogate(c))
  }

  predicate Spells(t: string, c: char) {
    Plainly(t, c) || Shortly(t, c) || ByNumber(t, c)
  }

  lemma DigitValue(c: char, d: nat)
    ensures HexValue(c) == Some(d) <==> DigitSpells(c, d)
  {
    if d < 10 {
      assert HEX_LOWER[d] as int == '0' as int + d && HEX_UPPER[d] == HEX_LOWER[d];
    } else if d < 16 {
      assert HEX_LOWER[d] as int == 'a' as int + (d - 10) && HEX_UPPER[d] as int == 'A' as int + (d - 10);
    }
  }

  lemma LastDigit(q: int, r: nat)
    requires r < 16
    ensures (q * 16 + r) / 16 == q && (q * 16 + r) % 16 == r
  {}

  lemma DigitsNest(n: int)
    ensures n / 256 == n / 16 / 16 && n / 4096 == n / 256 / 16
    ensures n == n / 16 * 16 + n % 16
    ensures n / 16 == n / 256 * 16 + n / 16 % 16 && n / 256 == n / 4096 * 16 + n / 256 % 16
  {}

  lemma FourDigits(a: nat, b: nat, c: nat, d: nat, n: int)
    requires a < 16 && b < 16 && c < 16 && d < 16
    ensures n == a * 4096 + b * 256 + c * 16 + d
      <==> n / 4096 == a && n / 256 % 16 == b && n / 16 % 16 == c && n % 16 == d
  {
    DigitsNest(n);
    var two, three := a * 16 + b, (a * 16 + b) * 16 + c;
    LastDigit(a, b);
    LastDigit(two, c);
    LastDigit(three, d);
  }

  // The parser takes four digits for a number exactly when they spell it.
  lemma FourRead(s: string, i: nat, n: nat)
    requires i <= |s|
    ensures Hex4(s[i..]) == Some(n) <==> FourAt(s, i, n)
  {
    if i + 4 <= |s| {
      var t := s[i..];
      assert t[0] == s[i] && t[1] == s[i + 1] && t[2] == s[i + 2] && t[3] == s[i + 3];
      var h0, h1, h2, h3 := HexValue(t[0]), HexValue(t[1]), HexValue(t[2]), HexValue(t[3]);
      if h0.Some? && h1.Some? && h2.Some? && h3.Some? {
        FourDigits(h0.value, h1.value, h2.value, h3.value, n);
      }
      DigitValue(t[0], n / 4096);
      DigitValue(t[1], n / 256 % 16);
      DigitValue(t[2], n / 16 % 16);
      DigitValue(t[3], n % 16);
    }
  }

  // ------------------------------------------- reading one spelled character

  // Reading a backslash and what follows it, up to `k`.
  lemma EscapeRead(s: string, c: char, k: nat)
    requires k <= |s| && ParseEscape(s) == Got(c, s[k..])
    ensures ParseChars("\\" + s) == Prepend(c, ParseChars(s[k..]))
  {
    assert ("\\" + s)[1..] == s;
  }

  lemma ShortRead(s: string, c: char)
    requires s != "" && (s[0], c) in SHORT
    ensures ParseEscape(s) == Got(c, s[1..])
  {
    var i :| 0 <= i < |SHORT| && SHORT[i] == (s[0], c);
  }

  lemma SingleRead(s: string, c: char)
    requires s != "" && s[0] == 'u' && c as int < 0x1_0000 && FourAt(s, 1, c as int)
    ensures ParseEscape(s) == Got(c, s[5..])
  {
    FourRead(s, 1, c as int);
  }

  lemma PairRead(s: string, c: char)
    requires s != "" && s[0] == 'u' && c as int >= 0x1_0000
    requires FourAt(s, 1, HighSurrogate(c)) && UnicodeAt(s, 5, LowSurrogate(c))
    ensures ParseEscape(s) == Got(c, s[11..])
  {
    FourRead(s, 1, HighSurrogate(c));
    FourRead(s, 7, LowSurrogate(c));
    JoinsHalves(c);
  }

  lemma JoinsHalves(c: char)
    requires c as int >= 0x1_0000
    ensures Joined(HighSurrogate(c), Some(LowSurrogate(c))) == Some((c, 11))
  {
    var n := c as int - 0x1_0000;
    assert n / 0x400 * 0x400 + n % 0x400 == n;
  }

  // The only units that make a character are its own.
  lemma JoinedIs(n: nat, second: Option<nat>)
    requires n < 0x10000 && (second.Some? ==> second.value < 0x10000) && Joined(n, second).Some?
    ensures var (c, k) := Joined(n, second).value;
      if c as int < 0x1_0000 then k == 5 && n == c as int
      else k == 11 && n == HighSurrogate(c) && second == Some(LowSurrogate(c))
  {
    if 0xD800 <= n < 0xE000 {
      Halves(n - 0xD800, second.value - 0xDC00);
    }
  }

  // The escape `t` without its backslash, in front of `rest`.
  lemma Behind(t: string, rest: string, s: string)
    requires t != "" && t[0] == '\\' && s == t[1..] + rest
    ensures t + rest == "\\" + s && s[|t| - 1..] == rest
    ensures forall i :: 1 <= i < |t| ==> s[i - 1] == t[i]
  {}

  // Every spelling of a character is read as that character, whatever follows.
  lemma SpellingRead(t: string, c: char, rest: string)
    requires Spells(t, c)
    ensures ParseChars(t + rest) == Prepend(c, ParseChars(rest))
  {
    if Plainly(t, c) {
      assert (t + rest)[1..] == rest;
    } else {
      var s := t[1..] + rest;
      Behind(t, rest, s);
      EscapeParses(t, c, s);
      EscapeRead(s, c, |t| - 1);
    }
  }

  lemma EscapeParses(t: string, c: char, s: string)
    requires Shortly(t, c) || ByNumber(t, c)
    requires |s| >= |t| - 1 && forall i :: 1 <= i < |t| ==> s[i - 1] == t[i]
    ensures ParseEscape(s) == Got(c, s[|t| - 1..])
  {
    if Shortly(t, c) {
      ShortRead(s, c);
    } else if c as int < 0x1_0000 {
      SingleRead(s, c);
    } else {
      PairRead(s, c);
    }
  }

  // ---------------------------------------------- and reading nothing else

  // What the parser consumes behind a backslash is a spelling.
  lemma EscapeIsSpelling(s: string, t: string)
    requires ParseEscape(s).Got?
    requires t == "\\" + s[..|s| - |ParseEscape(s).rest|]
    ensures s[|t| - 1..] == ParseEscape(s).rest && Spells(t, ParseEscape(s).value)
  {
    assert forall i :: 1 <= i < |t| ==> t[i] == s[i - 1];
    if s[0] != 'u' {
      ShortIsListed(s);
    } else {
      UnicodeIsSpelling(s, t);
    }
  }

  lemma UnicodeIsSpelling(s: string, t: string)
    requires ParseEscape(s).Got? && s[0] == 'u' && t != "" && t[0] == '\\'
    requires |t| == 1 + |s| - |ParseEscape(s).rest| && forall i :: 1 <= i < |t| ==> t[i] == s[i - 1]
    ensures s[|t| - 1..] == ParseEscape(s).rest && ByNumber(t, ParseEscape(s).value)
  {
    var n, second := Hex4(s[1..]).value, SecondUnit(s);
    JoinedIs(n, second);
    FourRead(s, 1, n);
    if second.Some? {
      FourRead(s, 7, second.value);
    }
  }

  lemma Halves(high: int, low: int)
    requires 0 <= low < 0x400
    ensures (high * 0x400 + low) / 0x400 == high && (high * 0x400 + low) % 0x400 == low
  {}

  lemma ShortIsListed(s: string)
    requires ParseEscape(s).Got? && s[0] != 'u'
    ensures ParseEscape(s).rest == s[1..] && (s[0], ParseEscape(s).value) in SHORT
  {
    assert SHORT[0] == ('"', '"') && SHORT[1] == ('\\', '\\') && SHORT[2] == ('/', '/');
    assert SHORT[3] == ('b', 8 as char) && SHORT[4] == ('f', 12 as char) && SHORT[5] == ('n', 10 as char);
    assert SHORT[6] == ('r', 13 as char) && SHORT[7] == ('t', 9 as char);
  }

  // A surrogate that is not half of a pair is no character.
  lemma LoneSurrogateFails(s: string, n: int)
    requires UnicodeAt(s, 0, n) && 0xD800 <= n < 0xE000
    requires n >= 0xDC00 || forall m :: 0xDC00 <= m < 0xE000 ==> !UnicodeAt(s, 6, m)
    ensures ParseChars(s) == Fail
  {
    var t := s[1..];
    assert t[0] == 'u' && forall i :: 1 <= i < |s| ==> t[i - 1] == s[i];
    FourRead(t, 1, n);
    if |t| >= 7 && t[5] == '\\' && t[6] == 'u' && Hex4(t[7..]).Some? {
      FourRead(t, 7, Hex4(t[7..]).value);
      assert UnicodeAt(s, 6, Hex4(t[7..]).value);
    }
  }

  // ------------------------------------------------------------- strings

  type Spelling = (string, char) -> bool

  type Reader = string -> Parsed<string>

  /** A text made of one spelling after the other. */
  ghost predicate Composed(spells: Spelling, text: string, str: string)
    decreases |str|
  {
    if str == "" then text == ""
    else exists t, rest :: text == t + rest && spells(t, str[0]) && Composed(spells, rest, str[1..])
  }

  const CLOSE := "\""

  ghost predicate ReadsSpellings(read: Reader, spells: Spelling) {
    forall t, c, rest :: spells(t, c) ==> read(t + rest) == Prepend(c, read(rest))
  }

  ghost predicate ReadsClose(read: Reader) {
    forall rest :: read(CLOSE + rest) == Got("", rest)
  }

  // A reader that reads single spellings reads composed texts.
  lemma {:induction false} ReadsThrough(read: Reader, spells: Spelling, text: string, str: string, rest: string)
    requires Composed(spells, text, str) && ReadsSpellings(read, spells) && ReadsClose(read)
    ensures read(text + (CLOSE + rest)) == Got(str, rest)
    decreases |str|
  {
    var tail := CLOSE + rest;
    if str == "" {
      assert text + tail == tail;
    } else {
      var t, more :| text == t + more && spells(t, str[0]) && Composed(spells, more, str[1..]);
      ReadsThrough(read, spells, more, str[1..], rest);
      assert text + tail == t + (more + tail);
      assert [str[0]] + str[1..] == str;
    }
  }

  // One that succeeds only on spellings succeeds only on composed texts.
  ghost predicate StartsSpelled(read: Reader, spells: Spelling, s: string) {
    exists c, t, rest :: StartsWith(read, spells, s, c, t, rest)
  }

  ghost predicate StartsWith(read: Reader, spells: Spelling, s: string, c: char, t: string, rest: string) {
    s == t + rest && |rest| < |s| && spells(t, c) && read(s) == Prepend(c, read(rest))
  }

  ghost predicate StartsClosed(read: Reader, s: string) {
    exists rest :: s == CLOSE + rest && read(s) == Got("", rest)
  }

  lemma {:induction false} ReadIsComposed(read: Reader, spells: Spelling, s: string) returns (text: string)
    requires forall x :: read(x).Got? ==> StartsClosed(read, x) || StartsSpelled(read, spells, x)
    requires read(s).Got?
    ensures Composed(spells, text, read(s).value) && s == text + (CLOSE + read(s).rest)
    decreases |s|
  {
    if StartsClosed(read, s) {
      text := "";
    } else {
      var c, t, rest :| StartsWith(read, spells, s, c, t, rest);
      var more := ReadIsComposed(read, spells, rest);
      text := t + more;
      ComposedCons(spells, t, c, more, read(rest).value);
      Regroup(t, more, CLOSE + read(s).rest);
    }
  }

  lemma Regroup(a: string, b: string, c: string)
    ensures a + (b + c) == (a + b) + c
  {}

  lemma ComposedCons(spells: Spelling, t: string, c: char, text: string, str: string)
    requires spells(t, c) && Composed(spells, text, str)
    ensures Composed(spells, t + text, [c] + str)
  {
    assert ([c] + str)[1..] == str;
  }

  // ------------------------------------------------------- string literals

  function RFC8259(): Spelling { (t: string, c: char) => Spells(t, c) }

  function Parser(): Reader { (s: string) => ParseChars(s) }

  /** The text between the quotes spells the string, character by character. */
  ghost predicate StringText(text: string, str: string) {
    Composed(RFC8259(), text, str)
  }

  /** A string literal with its quotes. */
  ghost predicate QuotedText(text: string, str: string) {
    exists inner :: text == CLOSE + inner + CLOSE && StringText(inner, str)
  }

  lemma CloseRead(rest: string)
    ensures ParseChars(CLOSE + rest) == Got("", rest)
  {
    assert (CLOSE + rest)[1..] == rest;
  }

  lemma StringRead(text: string, str: string, rest: string)
    requires StringText(text, str)
    ensures ParseChars(text + (CLOSE + rest)) == Got(str, rest)
  {
    forall t, c, r | RFC8259()(t, c) ensures Parser()(t + r) == Prepend(c, Parser()(r)) {
      SpellingRead(t, c, r);
    }
    forall r ensures Parser()(CLOSE + r) == Got("", r) {
      CloseRead(r);
    }
    ReadsThrough(Parser(), RFC8259(), text, str, rest);
  }

  // What the parser reads first: the closing quote or a spelled character.
  lemma FirstRead(s: string)
    requires ParseChars(s).Got?
    ensures StartsClosed(Parser(), s) || StartsSpelled(Parser(), RFC8259(), s)
  {
    if s[0] == '"' {
      assert s == CLOSE + s[1..];
    } else if s[0] == '\\' {
      EscapeFirst(s[1..]);
      assert s == "\\" + s[1..];
    } else {
      assert s[..1] == [s[0]] && s == s[..1] + s[1..];
      assert StartsWith(Parser(), RFC8259(), s, s[0], s[..1], s[1..]);
    }
  }

  // A spelling and the text behind it.
  lemma SpelledFirst(s: string, c: char, t: string, rest: string)
    requires s == t + rest && t != "" && Spells(t, c) && ParseChars(s) == Prepend(c, ParseChars(rest))
    ensures StartsSpelled(Parser(), RFC8259(), s)
  {
    assert StartsWith(Parser(), RFC8259(), s, c, t, rest);
  }

  lemma EscapeFirst(e: string)
    requires ParseChars("\\" + e).Got?
    ensures StartsSpelled(Parser(), RFC8259(), "\\" + e)
  {
    assert ("\\" + e)[1..] == e;
    var c, rest := ParseEscape(e).value, ParseEscape(e).rest;
    var k := |e| - |rest|;
    EscapeIsSpelling(e, "\\" + e[..k]);
    EscapeRead(e, c, k);
    assert "\\" + e == ("\\" + e[..k]) + rest;
    SpelledFirst("\\" + e, c, "\\" + e[..k], rest);
  }

  lemma CharsAreText(s: string) returns (text: string)
    requires ParseChars(s).Got?
    ensures StringText(text, ParseChars(s).value) && s == text + (CLOSE + ParseChars(s).rest)
  {
    forall x | Parser()(x).Got? ensures StartsClosed(Parser(), x) || StartsSpelled(Parser(), RFC8259(), x) {
      FirstRead(x);
    }
    text := ReadIsComposed(Parser(), RFC8259(), s);
  }

  lemma OpenQuote(inner: string, rest: string)
    ensures var s := CLOSE + inner + CLOSE + rest; s[0] == '"' && s[1..] == inner + (CLOSE + rest)
  {}

  lemma QuotedRead(text: string, str: string, rest: string)
    requires QuotedText(text, str)
    ensures ParseString(text + rest) == Got(str, rest)
  {
    var inner :| text == CLOSE + inner + CLOSE && StringText(inner, str);
    OpenQuote(inner, rest);
    StringRead(inner, str, rest);
  }

  lemma QuotedIsText(s: string) returns (text: string)
    requires ParseString(s).Got?
    ensures QuotedText(text, ParseString(s).value) && s == text + ParseString(s).rest
  {
    var inner := CharsAreText(s[1..]);
    text := CLOSE + inner + CLOSE;
    Rewrap(s, inner, ParseChars(s[1..]).rest);
  }

  lemma Rewrap(s: string, inner: string, rest: string)
    requires s != "" && s[0] == '"' && s[1..] == inner + (CLOSE + rest)
    ensures s == CLOSE + inner + CLOSE + rest
  {
    assert s == CLOSE + s[1..];
  }

  // --------------------------------------------- what the printers write

  // Both printers spell every character the standard's way.
  lemma EscapeSpells(c: char, style: Escapes)
    ensures Spells(EscapeChar(c, style), c)
  {
    var t, n := EscapeChar(c, style), c as int;
    if |t| == 2 {
      assert SHORT[0] == ('"', '"') && SHORT[1] == ('\\', '\\') && SHORT[3] == ('b', 8 as char);
      assert SHORT[4] == ('f', 12 as char) && SHORT[5] == ('n', 10 as char) && SHORT[6] == ('r', 13 as char);
      assert SHORT[7] == ('t', 9 as char);
    } else if n < 0x20 {
      assert t[2] == HEX_LOWER[0] && t[3] == HEX_LOWER[0];
      assert UnicodeAt(t, 0, n);
    }
  }

  // What they write for a character is its one shortest spelling, with digits
  // in lower case; only the hand-written quoting has no \b and \f.
  lemma WritesShortest(c: char, style: Escapes, t: string)
    requires Spells(t, c)
    ensures var e := EscapeChar(c, style);
      && (style.QuoteEscapes? && c as int in {8, 12} ==> |e| == 6)
      && (!(style.QuoteEscapes? && c as int in {8, 12}) ==> |e| < |t| || t == e || (|t| == 6 && |e| == 6))
      && (|e| == 6 ==> forall i :: 2 <= i < 6 ==> e[i] in HEX_LOWER)
  {
    if Shortly(t, c) {
      var i :| 0 <= i < |SHORT| && SHORT[i] == (t[1], c);
      assert t == [t[0], t[1]];
    }
  }

  lemma {:induction false} EscapedIsText(s: string, style: Escapes)
    ensures StringText(EscapeAll(s, style), s)
  {
    if s != "" {
      EscapeSpells(s[0], style);
      EscapedIsText(s[1..], style);
      StringCons(EscapeChar(s[0], style), s[0], EscapeAll(s[1..], style), s[1..]);
      assert [s[0]] + s[1..] == s;
    }
  }

  lemma QuotedIsQuoted(s: string, style: Escapes)
    ensures QuotedText(Quoted(s, style), s)
  {
    EscapedIsText(s, style);
  }

  lemma {:induction false} PlainIsText(s: string)
    requires forall i :: 0 <= i < |s| ==> Plainly([s[i]], s[i])
    ensures StringText(s, s)
  {
    if s != "" {
      PlainIsText(s[1..]);
      StringCons([s[0]], s[0], s[1..], s[1..]);
      assert [s[0]] + s[1..] == s;
    }
  }

  lemma StringCons(t: string, c: char, text: string, str: string)
    requires Spells(t, c) && StringText(text, str)
    ensures StringText(t + text, [c] + str)
  {
    ComposedCons(RFC8259(), t, c, text, str);
  }
}

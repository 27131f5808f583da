// JSON text (RFC 8259): values, strings, number tokens and the compact printer.
// Numbers are kept as their tokens.
module Json {
  import opened Basics

  datatype Json =
    | Null
    | Bool(b: bool)
    | Num(token: string)
    | Str(s: string)
    | Arr(items: seq<Json>)
    | Obj(members: seq<(string, Json)>)

  datatype Parsed<+T> = Fail | Got(value: T, rest: string)

  // -------------------------------------------------------------- strings

  // serde_json has short escapes for backspace and form feed; the
  // hand-written `quote` of runtime/rust/transports.rs does not.
  datatype Escapes = SerdeEscapes | QuoteEscapes

  function HexDigit(d: nat): char
    requires d < 16
  {
    HEX_LOWER[d]
  }

  function EscapeChar(c: char, style: Escapes): string {
    if c == '"' then "\\\""
    else if c == '\\' then "\\\\"
    else if c == '\n' then "\\n"
    else if c == '\r' then "\\r"
    else if c == '\t' then "\\t"
    else if c as int == 8 && style.SerdeEscapes? then "\\b"
    else if c as int == 12 && style.SerdeEscapes? then "\\f"
    else if c as int < 0x20 then
      "\\u00" + [HexDigit(c as int / 16), HexDigit(c as int % 16)]
    else [c]
  }

  function EscapeAll(s: string, style: Escapes): string {
    if s == "" then "" else EscapeChar(s[0], style) + EscapeAll(s[1..], style)
  }

  function Quoted(s: string, style: Escapes): string {
    "\"" + EscapeAll(s, style) + "\""
  }

  function HexValue(c: char): (r: Option<nat>)
    ensures r.Some? ==> r.value < 16
  {
    if '0' <= c <= '9' then Some(c as int - '0' as int)
    else if 'a' <= c <= 'f' then Some(c as int - 'a' as int + 10)
    else if 'A' <= c <= 'F' then Some(c as int - 'A' as int + 10)
    else None
  }

  function Hex4(s: string): (r: Option<nat>)
    ensures r.Some? ==> |s| >= 4 && r.value < 0x10000
  {
    if |s| < 4 then None
    else
      match (HexValue(s[0]), HexValue(s[1]), HexValue(s[2]), HexValue(s[3]))
      case (Some(a), Some(b), Some(c), Some(d)) => Some(a * 4096 + b * 256 + c * 16 + d)
      case _ => None
  }

  /** What follows a backslash: the character it stands for and the rest. */
  function ParseEscape(s: string): (r: Parsed<char>)
    ensures r.Got? ==> |r.rest| < |s|
  {
    if s == "" then Fail
    else if s[0] == '"' || s[0] == '\\' || s[0] == '/' then Got(s[0], s[1..])
    else if s[0] == 'b' then Got(8 as char, s[1..])
    else if s[0] == 'f' then Got(12 as char, s[1..])
    else if s[0] == 'n' then Got('\n', s[1..])
    else if s[0] == 'r' then Got('\r', s[1..])
    else if s[0] == 't' then Got('\t', s[1..])
    else if s[0] == 'u' then
      match Hex4(s[1..])
      case None => Fail
      case Some(n) => Consumed(Joined(n, SecondUnit(s)), s)
    else Fail
  }

  /** The four digits of an escape that follows `u` and four digits directly. */
  function SecondUnit(s: string): (r: Option<nat>)
    ensures r.Some? ==> |s| >= 11 && r.value < 0x10000
  {
    if |s| >= 7 && s[5] == '\\' && s[6] == 'u' then Hex4(s[7..]) else None
  }

  /** The character of one UTF-16 unit, or of a pair, and the text it takes. */
  function Joined(n: nat, second: Option<nat>): (r: Option<(char, nat)>)
    requires n < 0x10000 && (second.Some? ==> second.value < 0x10000)
    ensures r.Some? ==> r.value.1 == if second.Some? && 0xD800 <= n < 0xE000 then 11 else 5
  {
    if n < 0xD800 || n >= 0xE000 then Some((n as char, 5))
    else if n < 0xDC00 && second.Some? && 0xDC00 <= second.value < 0xE000 then
      Some(((0x10000 + (n - 0xD800) * 0x400 + (second.value - 0xDC00)) as char, 11))
    else None
  }

  function Consumed(unit: Option<(char, nat)>, s: string): (r: Parsed<char>)
    requires unit.Some? ==> unit.value.1 <= |s|
  {
    match unit
    case None => Fail
    case Some((c, n)) => Got(c, s[n..])
  }

  /** The rest of a string literal, its opening quote already consumed. */
  function ParseChars(s: string): (r: Parsed<string>)
    ensures r.Got? ==> |r.rest| < |s|
  {
    if s == "" then Fail
    else if s[0] == '"' then Got("", s[1..])
    else if s[0] == '\\' then
      match ParseEscape(s[1..])
      case Fail => Fail
      case Got(c, rest) => Prepend(c, ParseChars(rest))
    else if s[0] as int < 0x20 then Fail
    else Prepend(s[0], ParseChars(s[1..]))
  }

  function Prepend(c: char, tail: Parsed<string>): (r: Parsed<string>)
    ensures tail.Got? <==> r.Got?
    ensures tail.Got? ==> r.rest == tail.rest
  {
    match tail
    case Fail => Fail
    case Got(s, rest) => Got([c] + s, rest)
  }

  function ParseString(s: string): Parsed<string> {
    if s != "" && s[0] == '"' then ParseChars(s[1..]) else Fail
  }

  lemma HexDigitReadsBack(d: nat)
    requires d < 16
    ensures HexValue(HexDigit(d)) == Some(d)
  {}

  lemma ControlEscapeReadsBack(n: nat, rest: string)
    requires n < 0x20
    ensures ParseEscape("u00" + [HexDigit(n / 16), HexDigit(n % 16)] + rest) == Got(n as char, rest)
  {
    var e := "u00" + [HexDigit(n / 16), HexDigit(n % 16)];
    var s := e + rest;
    assert forall i :: 0 <= i < 5 ==> s[i] == e[i];
    HexDigitReadsBack(n / 16);
    HexDigitReadsBack(n % 16);
    var t := s[1..];
    assert t[0] == '0' && t[1] == '0' && t[2] == HexDigit(n / 16) && t[3] == HexDigit(n % 16);
    assert HexValue('0') == Some(0);
    assert Hex4(t) == Some(n);
    assert s[5..] == rest;
  }

  lemma EscapeCharReadsBack(c: char, style: Escapes, rest: string)
    ensures ParseChars(EscapeChar(c, style) + rest) == Prepend(c, ParseChars(rest))
  {
    var e := EscapeChar(c, style);
    var s := e + rest;
    assert s[0] == e[0];
    if |e| == 6 {
      var n := c as int;
      assert s[1..] == "u00" + [HexDigit(n / 16), HexDigit(n % 16)] + rest;
      ControlEscapeReadsBack(n, rest);
    } else if |e| == 2 {
      assert s[1] == e[1];
      assert s[1..][1..] == rest;
    } else {
      assert s[1..] == rest;
    }
  }

  // A quoted string delimits itself: whatever follows it, the parser reads
  // back exactly the string and stops exactly there.
  lemma {:induction false} EscapeAllReadsBack(s: string, style: Escapes, rest: string)
    ensures ParseChars(EscapeAll(s, style) + "\"" + rest) == Got(s, rest)
  {
    if s == "" {
      assert (EscapeAll(s, style) + "\"" + rest)[1..] == rest;
    } else {
      var tail := EscapeAll(s[1..], style) + "\"" + rest;
      assert EscapeAll(s, style) + "\"" + rest == EscapeChar(s[0], style) + tail;
      EscapeCharReadsBack(s[0], style, tail);
      EscapeAllReadsBack(s[1..], style, rest);
      assert [s[0]] + s[1..] == s;
    }
  }

  // Peeling the opening bracket off a bracketed text.
  lemma Unwrap(open: char, body: string, close: string, rest: string)
    ensures ([open] + body + close + rest)[0] == open
    ensures ([open] + body + close + rest)[1..] == body + close + rest
  {}

  lemma QuotedReadsBack(s: string, style: Escapes, rest: string)
    ensures ParseString(Quoted(s, style) + rest) == Got(s, rest)
  {
    EscapeAllReadsBack(s, style, rest);
    Unwrap('"', EscapeAll(s, style), "\"", rest);
  }

  // -------------------------------------------------------------- numbers

  predicate IsDigit(c: char) { '0' <= c <= '9' }

  function DigitRun(s: string): (n: nat)
    ensures n <= |s|
  {
    if s != "" && IsDigit(s[0]) then 1 + DigitRun(s[1..]) else 0
  }

  function IntLength(s: string): (r: Option<nat>)
    ensures r.Some? ==> 1 <= r.value <= |s|
  {
    if s == "" || !IsDigit(s[0]) then None
    else if s[0] == '0' then Some(1)
    else Some(DigitRun(s))
  }

  function FractionLength(s: string): (r: Option<nat>)
    ensures r.Some? ==> r.value <= |s|
  {
    if s == "" || s[0] != '.' then Some(0)
    else if DigitRun(s[1..]) == 0 then None
    else Some(1 + DigitRun(s[1..]))
  }

  function ExponentLength(s: string): (r: Option<nat>)
    ensures r.Some? ==> r.value <= |s|
  {
    if s == "" || (s[0] != 'e' && s[0] != 'E') then Some(0)
    else
      var sign := if |s| >= 2 && (s[1] == '+' || s[1] == '-') then 1 else 0;
      var run := DigitRun(s[1 + sign..]);
      if run == 0 then None else Some(1 + sign + run)
  }

  function FractionExponentLength(s: string): (r: Option<nat>)
    ensures r.Some? ==> r.value <= |s|
  {
    match FractionLength(s)
    case None => None
    case Some(n) =>
      match ExponentLength(s[n..])
      case None => None
      case Some(m) => Some(n + m)
  }

  function UnsignedLength(s: string): (r: Option<nat>)
    ensures r.Some? ==> 1 <= r.value <= |s|
  {
    match IntLength(s)
    case None => None
    case Some(n) =>
      match FractionExponentLength(s[n..])
      case None => None
      case Some(m) => Some(n + m)
  }

  /** The length of the number a text starts with, if it starts with one. */
  function NumberLength(s: string): (r: Option<nat>)
    ensures r.Some? ==> 1 <= r.value <= |s|
    ensures r.Some? ==> s[0] == '-' || IsDigit(s[0])
  {
    if s != "" && s[0] == '-' then
      match UnsignedLength(s[1..])
      case None => None
      case Some(n) => Some(1 + n)
    else UnsignedLength(s)
  }

  predicate IsNumber(t: string) {
    NumberLength(t) == Some(|t|)
  }

  predicate NumberChar(c: char) {
    IsDigit(c) || c == '.' || c == 'e' || c == 'E' || c == '+' || c == '-'
  }

  predicate EndsNumber(rest: string) {
    rest == "" || !NumberChar(rest[0])
  }

  lemma {:induction false} DigitRunExtends(s: string, rest: string)
    requires EndsNumber(rest)
    ensures DigitRun(s + rest) == DigitRun(s)
  {
    if s == "" {
      assert s + rest == rest;
    } else {
      assert (s + rest)[1..] == s[1..] + rest;
      DigitRunExtends(s[1..], rest);
    }
  }

  lemma PartsExtend(s: string, rest: string)
    requires EndsNumber(rest)
    ensures IntLength(s).Some? ==> IntLength(s + rest) == IntLength(s)
    ensures FractionLength(s).Some? ==> FractionLength(s + rest) == FractionLength(s)
    ensures ExponentLength(s).Some? ==> ExponentLength(s + rest) == ExponentLength(s)
  {
    DigitRunExtends(s, rest);
    if s == "" {
      assert s + rest == rest;
    } else {
      assert (s + rest)[1..] == s[1..] + rest;
      DigitRunExtends(s[1..], rest);
      if |s| >= 2 {
        assert (s + rest)[2..] == s[2..] + rest;
        DigitRunExtends(s[2..], rest);
      }
    }
  }

  lemma DropConcat(t: string, rest: string, n: nat)
    requires n <= |t|
    ensures (t + rest)[n..] == t[n..] + rest
  {}

  lemma UnsignedExtends(s: string, rest: string)
    requires EndsNumber(rest) && UnsignedLength(s).Some?
    ensures UnsignedLength(s + rest) == UnsignedLength(s)
  {
    PartsExtend(s, rest);
    var n := IntLength(s).value;
    var t := s[n..];
    DropConcat(s, rest, n);
    PartsExtend(t, rest);
    var m := FractionLength(t).value;
    DropConcat(t, rest, m);
    PartsExtend(t[m..], rest);
  }

  lemma NumberExtends(t: string, rest: string)
    requires IsNumber(t) && EndsNumber(rest)
    ensures NumberLength(t + rest) == Some(|t|)
  {
    assert (t + rest)[0] == t[0];
    if t[0] == '-' {
      DropConcat(t, rest, 1);
      UnsignedExtends(t[1..], rest);
    } else {
      UnsignedExtends(t, rest);
    }
  }

  lemma {:induction false} DigitsRunThrough(s: string)
    requires AllDigits(s)
    ensures DigitRun(s) == |s|
  {
    if s != "" {
      DigitsRunThrough(s[1..]);
    }
  }

  lemma DecimalIsNumber(n: nat)
    ensures IsNumber(Decimal(n)) && AllDigits(Decimal(n)) && DecimalValue(Decimal(n)) == n
  {
    DecimalReadsBack(n);
    var s := Decimal(n);
    DigitsRunThrough(s);
    assert s[0..] == s;
    assert s[|s|..] == "";
  }

  // --------------------------------------------------------------- values

  /** What the library's value type guarantees: legal number tokens and no
      repeated member name. */
  ghost predicate WellFormed(v: Json) {
    match v
    case Num(t) => IsNumber(t)
    case Arr(items) => forall i :: 0 <= i < |items| ==> WellFormed(items[i])
    case Obj(ms) => DistinctKeys(ms) && forall i :: 0 <= i < |ms| ==> WellFormed(ms[i].1)
    case _ => true
  }

  ghost predicate DistinctKeys<V>(ms: seq<(string, V)>) {
    forall i, j :: 0 <= i < j < |ms| ==> ms[i].0 != ms[j].0
  }

  function Max(a: nat, b: nat): nat { if a < b then b else a }

  /** How many arrays and objects the deepest part of a value sits inside. */
  function Depth(v: Json): nat
    decreases v, 1
  {
    match v
    case Arr(items) => 1 + ItemsDepth(items)
    case Obj(ms) => 1 + MembersDepth(ms)
    case _ => 0
  }

  function ItemsDepth(items: seq<Json>): nat
    decreases items, 0
  {
    if items == [] then 0 else Max(Depth(items[0]), ItemsDepth(items[1..]))
  }

  function MemberDepth(m: (string, Json)): nat
    decreases m, 2
  {
    Depth(m.1)
  }

  function MembersDepth(ms: seq<(string, Json)>): nat
    decreases ms, 0
  {
    if ms == [] then 0 else Max(MemberDepth(ms[0]), MembersDepth(ms[1..]))
  }

  /** Look a member up by name. */
  function Get<V>(ms: seq<(string, V)>, name: string): Option<V> {
    if ms == [] then None
    else if ms[0].0 == name then Some(ms[0].1)
    else Get(ms[1..], name)
  }

  /** Insert into an insertion-ordered map: a repeated name keeps its place
      and takes the new value. */
  function Insert<V>(ms: seq<(string, V)>, name: string, v: V): seq<(string, V)> {
    if ms == [] then [(name, v)]
    else if ms[0].0 == name then [(name, v)] + ms[1..]
    else [ms[0]] + Insert(ms[1..], name, v)
  }

  lemma {:induction false} InsertFresh<V>(ms: seq<(string, V)>, name: string, v: V)
    requires forall i :: 0 <= i < |ms| ==> ms[i].0 != name
    ensures Insert(ms, name, v) == ms + [(name, v)]
  {
    if ms != [] {
      InsertFresh(ms[1..], name, v);
    }
  }

  lemma {:induction false} GetSpec<V>(ms: seq<(string, V)>, name: string)
    ensures Get(ms, name).None? <==> forall i :: 0 <= i < |ms| ==> ms[i].0 != name
    ensures Get(ms, name).Some? ==> exists i :: 0 <= i < |ms| && ms[i] == (name, Get(ms, name).value)
  {
    if ms != [] {
      GetSpec(ms[1..], name);
      if ms[0].0 == name {
        assert ms[0] == (name, Get(ms, name).value);
      } else if Get(ms, name).Some? {
        var i :| 0 <= i < |ms[1..]| && ms[1..][i] == (name, Get(ms, name).value);
        assert ms[i + 1] == ms[1..][i];
      } else {
        assert forall i :: 1 <= i < |ms| ==> ms[i] == ms[1..][i - 1];
      }
      if forall i :: 0 <= i < |ms| ==> ms[i].0 != name {
        assert forall i :: 0 <= i < |ms[1..]| ==> ms[1..][i] == ms[i + 1];
      }
    }
  }

  lemma {:induction false} GetAt<V>(ms: seq<(string, V)>, i: nat)
    requires DistinctKeys(ms) && i < |ms|
    ensures Get(ms, ms[i].0) == Some(ms[i].1)
  {
    if i > 0 {
      assert ms[1..][i - 1] == ms[i];
      GetAt(ms[1..], i - 1);
    }
  }

  lemma {:induction false} GetConcat<V>(a: seq<(string, V)>, b: seq<(string, V)>, name: string)
    ensures Get(a + b, name) == if Get(a, name).Some? then Get(a, name) else Get(b, name)
  {
    if a == [] {
      assert a + b == b;
    } else {
      assert (a + b)[0] == a[0] && (a + b)[1..] == a[1..] + b;
      GetConcat(a[1..], b, name);
    }
  }

  // -------------------------------------------------------------- printer

  function Print(v: Json): string
    decreases v, 1
  {
    match v
    case Null => "null"
    case Bool(b) => if b then "true" else "false"
    case Num(t) => t
    case Str(s) => Quoted(s, SerdeEscapes)
    case Arr(items) => "[" + PrintItems(items) + "]"
    case Obj(ms) => "{" + PrintMembers(ms) + "}"
  }

  function PrintItems(items: seq<Json>): string
    decreases items, 0
  {
    if items == [] then ""
    else Print(items[0]) + (if |items| == 1 then "" else "," + PrintItems(items[1..]))
  }

  function PrintMember(m: (string, Json)): string
    decreases m, 2
  {
    Quoted(m.0, SerdeEscapes) + ":" + Print(m.1)
  }

  function PrintMembers(ms: seq<(string, Json)>): string
    decreases ms, 0
  {
    if ms == [] then ""
    else PrintMember(ms[0]) + (if |ms| == 1 then "" else "," + PrintMembers(ms[1..]))
  }
}

// The parser reads every text of the JSON grammar as what it means.
module JsonAccepted {
  import opened Json
  import opened JsonGrammar
  import opened JsonNumbers
  import opened JsonParser
  import opened JsonText
  import R = JsonRoundTrip

  // ---------------------------------------------------------- white space

  lemma {:induction false} SkipAway(a: string, s: string)
    requires Blank(a)
    ensures SkipSpace(a + s) == SkipSpace(s)
  {
    if a == "" {
      assert a + s == s;
    } else {
      assert (a + s)[0] == a[0] && (a + s)[1..] == a[1..] + s;
      SkipAway(a[1..], s);
    }
  }

  lemma {:induction false} Blanks(s: string) returns (a: string)
    ensures Blank(a) && s == a + SkipSpace(s)
    ensures SkipSpace(s) == "" || !IsSpace(SkipSpace(s)[0])
  {
    if s != "" && IsSpace(s[0]) {
      var more := Blanks(s[1..]);
      a := [s[0]] + more;
      assert s == [s[0]] + s[1..];
    } else {
      a := "";
    }
  }

  lemma SkipTwice(s: string)
    ensures SkipSpace(SkipSpace(s)) == SkipSpace(s)
  {
    var a := Blanks(s);
  }

  // The parser looks behind white space first.
  lemma ValueBehind(s: string, depth: nat)
    ensures ParseValue(SkipSpace(s), depth) == ParseValue(s, depth)
  {
    SkipTwice(s);
  }

  /** What can come after a value inside a document. */
  predicate Follows(rest: string) {
    rest == "" || rest[0] == ',' || rest[0] == ']' || rest[0] == '}'
  }

  lemma BlankFollowed(b: string, rest: string)
    requires Blank(b) && Follows(rest)
    ensures EndsNumber(b + rest) && SkipSpace(b + rest) == rest
  {
    SkipAway(b, rest);
    assert b == "" ==> b + rest == rest;
  }

  // ------------------------------------------------- every text is accepted

  ghost predicate ReadAs(p: Parsed<Json>, v: Json, rest: string) {
    p.Got? && p.value == v && SkipSpace(p.rest) == rest
  }

  lemma BehindBlank(s: string, a: string, x: string, depth: nat)
    requires Blank(a) && s == a + x
    ensures ParseValue(s, depth) == ParseValue(x, depth)
  {
    SkipAway(a, x);
    ValueBehind(x, depth);
    ValueBehind(s, depth);
  }

  lemma {:induction false} PaddedParses(w: Json, text: string, rest: string, depth: nat)
    requires Padded(text, w) && Follows(rest) && Depth(w) <= depth
    ensures ReadAs(ParseValue(text + rest, depth), Value(w), rest)
    decreases w, 1
  {
    var a, t, b :| text == a + (t + b) && Blank(a) && Blank(b) && Written(t, w);
    BlankFollowed(b, rest);
    WrittenParses(w, t, b + rest, depth);
    Spread(a, t, b, rest);
    BehindBlank(text + rest, a, t + (b + rest), depth);
  }

  lemma Spread(a: string, t: string, b: string, rest: string)
    ensures a + (t + b) + rest == a + (t + (b + rest))
  {}

  lemma {:induction false} WrittenParses(w: Json, t: string, rest: string, depth: nat)
    requires Written(t, w) && EndsNumber(rest) && Depth(w) <= depth
    ensures ParseValue(t + rest, depth) == Got(Value(w), rest)
    decreases w, 0
  {
    match w
    case Num(token) =>
      NumberRead(token);
      R.NumberParses(token, rest, depth);
    case Str(s) => StringParses(t, s, rest, depth);
    case Arr(items) =>
      var inner :| t == "[" + (inner + "]") && (if items == [] then Blank(inner) else ItemsText(inner, items));
      Bracketed('[', inner, "]", rest);
      ArrayParses(items, inner, rest, depth - 1);
      ArrayDispatch(t + rest, depth);
    case Obj(ms) =>
      var inner :| t == "{" + (inner + "}") && (if ms == [] then Blank(inner) else MembersText(inner, ms));
      Bracketed('{', inner, "}", rest);
      ObjectParses(ms, inner, rest, depth - 1);
      ObjectDispatch(t + rest, depth);
    case _ => R.LiteralParses(rest, depth);
  }

  lemma Bracketed(open: char, inner: string, close: string, rest: string)
    ensures var s := [open] + (inner + close) + rest; s[0] == open && s[1..] == inner + (close + rest)
  {}

  lemma ArrayDispatch(s: string, depth: nat)
    requires s != "" && s[0] == '[' && depth > 0
    ensures ParseValue(s, depth)
      == match ParseArray(s[1..], depth - 1) case Fail => Fail case Got(items, rest) => Got(Arr(items), rest)
  {}

  lemma ObjectDispatch(s: string, depth: nat)
    requires s != "" && s[0] == '{' && depth > 0
    ensures ParseValue(s, depth)
      == match ParseObject(s[1..], depth - 1) case Fail => Fail case Got(ms, rest) => Got(Obj(ms), rest)
  {}

  lemma StringDispatch(s: string, depth: nat)
    requires s != "" && s[0] == '"'
    ensures ParseValue(s, depth)
      == match ParseString(s) case Fail => Fail case Got(str, rest) => Got(Str(str), rest)
  {}

  lemma QuoteFirst(t: string, s: string)
    requires QuotedText(t, s)
    ensures t != "" && t[0] == '"'
  {}

  lemma StringParses(t: string, s: string, rest: string, depth: nat)
    requires QuotedText(t, s)
    ensures ParseValue(t + rest, depth) == Got(Str(s), rest)
  {
    QuoteFirst(t, s);
    StringDispatch(t + rest, depth);
    QuotedRead(t, s, rest);
  }

  lemma {:induction false} ArrayParses(items: seq<Json>, inner: string, rest: string, depth: nat)
    requires if items == [] then Blank(inner) else ItemsText(inner, items)
    requires ItemsDepth(items) <= depth
    ensures ParseArray(inner + ("]" + rest), depth) == Got(Values(items), rest)
    decreases items, 4
  {
    var s := inner + ("]" + rest);
    if items == [] {
      SkipAway(inner, "]" + rest);
      assert ("]" + rest)[1..] == rest;
    } else {
      ItemsParse(items, inner, rest, depth);
      ItemsBehind(s, depth);
    }
  }

  // Items start behind white space, and not with the closing bracket.
  lemma ItemsBehind(s: string, depth: nat)
    requires ParseItems(s, depth).Got?
    ensures ParseArray(s, depth) == ParseItems(s, depth)
  {
    ValueBehind(s, depth);
    NoCloser(SkipSpace(s), depth);
  }

  lemma NoCloser(s: string, depth: nat)
    requires ParseValue(s, depth).Got?
    ensures !Starts(s, ']') && !Starts(s, '}')
  {}

  lemma LastItem(s: string, depth: nat, v: Json, rest: string)
    requires ReadAs(ParseValue(s, depth), v, "]" + rest)
    ensures ParseItems(s, depth) == Got([v], rest)
  {
    assert ("]" + rest)[1..] == rest;
  }

  lemma NextItem(s: string, depth: nat, v: Json, more: string, items: seq<Json>, rest: string)
    requires ReadAs(ParseValue(s, depth), v, "," + more) && ParseItems(more, depth) == Got(items, rest)
    ensures ParseItems(s, depth) == Got([v] + items, rest)
  {
    assert ("," + more)[1..] == more;
  }

  lemma Separated(first: string, more: string, close: string, rest: string)
    ensures first + ("," + more) + (close + rest) == first + ("," + (more + (close + rest)))
  {}

  lemma {:induction false} ItemsParse(items: seq<Json>, text: string, rest: string, depth: nat)
    requires items != [] && ItemsText(text, items) && ItemsDepth(items) <= depth
    ensures ParseItems(text + ("]" + rest), depth) == Got(Values(items), rest)
    decreases items, 3
  {
    if |items| == 1 {
      PaddedParses(items[0], text, "]" + rest, depth);
      LastItem(text + ("]" + rest), depth, Value(items[0]), rest);
      assert items[1..] == [] && Values(items) == [Value(items[0])];
    } else {
      var first, more :| text == first + ("," + more) && Padded(first, items[0]) && ItemsText(more, items[1..]);
      var next := more + ("]" + rest);
      Separated(first, more, "]", rest);
      PaddedParses(items[0], first, "," + next, depth);
      ItemsParse(items[1..], more, rest, depth);
      NextItem(text + ("]" + rest), depth, Value(items[0]), next, Values(items[1..]), rest);
    }
  }

  // The name is read, then the colon, then the value.
  lemma MemberSteps(s: string, x: string, str: string, y: string, z: string, depth: nat)
    requires SkipSpace(s) == x && ParseString(x) == Got(str, y) && SkipSpace(y) == ":" + z
    requires ParseValue(z, depth).Got?
    ensures ParseMember(s, depth) == Got((str, ParseValue(z, depth).value), ParseValue(z, depth).rest)
  {
    assert (":" + z)[1..] == z;
  }

  lemma SpreadMember(a: string, name: string, b: string, v: string, rest: string)
    ensures a + (name + (b + (":" + v))) + rest == a + (name + (b + (":" + (v + rest))))
  {}

  lemma NameAhead(a: string, name: string, str: string, x: string)
    requires Blank(a) && QuotedText(name, str)
    ensures SkipSpace(a + (name + x)) == name + x && ParseString(name + x) == Got(str, x)
  {
    QuoteFirst(name, str);
    SkipAway(a, name + x);
    R.SkipsNothing(name + x);
    QuotedRead(name, str, x);
  }

  lemma {:induction false} MemberParses(m: (string, Json), text: string, rest: string, depth: nat)
    requires MemberText(text, m) && Follows(rest) && Depth(m.1) <= depth
    ensures ReadMember(ParseMember(text + rest, depth), m, rest)
    decreases m, 2
  {
    var a, name, b, v :|
      text == a + (name + (b + (":" + v))) && Blank(a) && Blank(b) && QuotedText(name, m.0) && Padded(v, m.1);
    PaddedParses(m.1, v, rest, depth);
    SpreadMember(a, name, b, v, rest);
    MemberAhead(a, name, m.0, b, v + rest, text + rest, depth);
  }

  lemma MemberAhead(a: string, name: string, str: string, b: string, z: string, s: string, depth: nat)
    requires Blank(a) && Blank(b) && QuotedText(name, str) && s == a + (name + (b + (":" + z)))
    requires ParseValue(z, depth).Got?
    ensures ParseMember(s, depth) == Got((str, ParseValue(z, depth).value), ParseValue(z, depth).rest)
  {
    NameAhead(a, name, str, b + (":" + z));
    SkipAway(b, ":" + z);
    R.SkipsNothing(":" + z);
    MemberSteps(s, name + (b + (":" + z)), str, b + (":" + z), z, depth);
  }

  ghost predicate ReadMember(p: Parsed<(string, Json)>, m: (string, Json), rest: string) {
    p.Got? && p.value == (m.0, MemberValue(m)) && SkipSpace(p.rest) == rest
  }

  lemma LastMember(s: string, depth: nat, acc: seq<(string, Json)>, m: (string, Json), rest: string)
    requires ReadMember(ParseMember(s, depth), m, "}" + rest)
    ensures ParseMembers(s, depth, acc) == Got(Insert(acc, m.0, MemberValue(m)), rest)
  {
    assert ("}" + rest)[1..] == rest;
  }

  lemma NextMember(s: string, depth: nat, acc: seq<(string, Json)>, m: (string, Json), more: string)
    requires ReadMember(ParseMember(s, depth), m, "," + more)
    ensures ParseMembers(s, depth, acc) == ParseMembers(more, depth, Insert(acc, m.0, MemberValue(m)))
  {
    assert ("," + more)[1..] == more;
  }

  lemma {:induction false} ObjectParses(ms: seq<(string, Json)>, inner: string, rest: string, depth: nat)
    requires if ms == [] then Blank(inner) else MembersText(inner, ms)
    requires MembersDepth(ms) <= depth
    ensures ParseObject(inner + ("}" + rest), depth) == Got(Collect([], ms), rest)
    decreases ms, 5
  {
    var s := inner + ("}" + rest);
    if ms == [] {
      SkipAway(inner, "}" + rest);
      assert ("}" + rest)[1..] == rest;
    } else {
      MembersParse(ms, [], inner, rest, depth);
      MembersBehind(s, depth);
    }
  }

  lemma MembersBehind(s: string, depth: nat)
    requires ParseMembers(s, depth, []).Got?
    ensures ParseObject(s, depth) == ParseMembers(s, depth, [])
  {
    SkipTwice(s);
    assert ParseMember(SkipSpace(s), depth) == ParseMember(s, depth);
  }

  lemma {:induction false} MembersParse(ms: seq<(string, Json)>, acc: seq<(string, Json)>, text: string, rest: string,
      depth: nat)
    requires ms != [] && MembersText(text, ms) && MembersDepth(ms) <= depth
    ensures ParseMembers(text + ("}" + rest), depth, acc) == Got(Collect(acc, ms), rest)
    decreases ms, 4
  {
    if |ms| == 1 {
      MemberParses(ms[0], text, "}" + rest, depth);
      LastMember(text + ("}" + rest), depth, acc, ms[0], rest);
      assert ms[1..] == [];
    } else {
      var first, more :| text == first + ("," + more) && MemberText(first, ms[0]) && MembersText(more, ms[1..]);
      var next := more + ("}" + rest);
      Separated(first, more, "}", rest);
      MemberParses(ms[0], first, "," + next, depth);
      NextMember(text + ("}" + rest), depth, acc, ms[0], next);
      MembersParse(ms[1..], Insert(acc, ms[0].0, MemberValue(ms[0])), more, rest, depth);
    }
  }
}

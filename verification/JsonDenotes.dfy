// The parser reads nothing but the texts of the JSON grammar.
module JsonDenotes {
  import opened Basics
  import opened Json
  import opened JsonAccepted
  import opened JsonGrammar
  import opened JsonNumbers
  import opened JsonParser
  import opened JsonText

  // ---------------------------------------------- and nothing else is accepted

  // A value read from the front of a text, and the text it was read from.
  ghost predicate ReadFrom(s: string, depth: nat, a: string, t: string, w: Json) {
    && ParseValue(s, depth).Got?
    && s == a + (t + ParseValue(s, depth).rest)
    && Blank(a) && Written(t, w) && Depth(w) <= depth && ParseValue(s, depth).value == Value(w)
  }

  lemma LiteralIsText(s: string, depth: nat) returns (t: string)
    requires s != "" && s[0] in ['n', 't', 'f'] && ParseValue(s, depth).Got?
    ensures ReadFrom(s, depth, "", t, ParseValue(s, depth).value)
  {
    SkipFirst(s);
    t := if s[0] == 'n' then "null" else if s[0] == 't' then "true" else "false";
    assert s == t + s[|t|..];
    assert "" + s == s;
  }

  lemma SkipFirst(s: string)
    requires s != "" && !IsSpace(s[0])
    ensures SkipSpace(s) == s
  {}

  lemma {:induction false} ValueIsText(s: string, depth: nat) returns (a: string, t: string, w: Json)
    requires ParseValue(s, depth).Got?
    ensures ReadFrom(s, depth, a, t, w)
    decreases |s|, 2, 0
  {
    a := Blanks(s);
    var x := SkipSpace(s);
    ValueBehind(s, depth);
    t, w := TokenIsText(x, depth);
    assert "" + (t + ParseValue(x, depth).rest) == t + ParseValue(x, depth).rest;
  }

  lemma {:induction false} TokenIsText(x: string, depth: nat) returns (t: string, w: Json)
    requires ParseValue(x, depth).Got? && SkipSpace(x) == x
    ensures ReadFrom(x, depth, "", t, w)
    decreases |x|, 1
  {
    if x[0] == '"' {
      t := StringToken(x, depth);
      w := ParseValue(x, depth).value;
    } else if x[0] == '[' {
      OpensArray(x, depth);
      var inner, items := ArrayIsText(x[1..], depth - 1);
      t, w := "[" + (inner + "]"), Arr(items);
      ArrayToken(x, depth, inner, items);
    } else if x[0] == '{' {
      OpensObject(x, depth);
      var inner, ms := ObjectIsText(x[1..], depth - 1);
      t, w := "{" + (inner + "}"), Obj(ms);
      ObjectToken(x, depth, inner, ms);
    } else if x[0] in ['n', 't', 'f'] {
      t := LiteralIsText(x, depth);
      w := ParseValue(x, depth).value;
    } else {
      t := NumberIsRead(x, depth);
      w := Num(t);
    }
  }

  lemma StringToken(x: string, depth: nat) returns (t: string)
    requires ParseValue(x, depth).Got? && x != "" && x[0] == '"'
    ensures ReadFrom(x, depth, "", t, ParseValue(x, depth).value)
  {
    StringDispatch(x, depth);
    t := QuotedIsText(x);
    Unpadded(t + ParseValue(x, depth).rest);
  }

  lemma Unpadded(s: string)
    ensures "" + s == s
  {}

  lemma OpensArray(x: string, depth: nat)
    requires ParseValue(x, depth).Got? && x != "" && x[0] == '['
    ensures depth > 0 && ParseArray(x[1..], depth - 1).Got?
    ensures ParseValue(x, depth)
      == Got(Arr(ParseArray(x[1..], depth - 1).value), ParseArray(x[1..], depth - 1).rest)
  {}

  lemma OpensObject(x: string, depth: nat)
    requires ParseValue(x, depth).Got? && x != "" && x[0] == '{'
    ensures depth > 0 && ParseObject(x[1..], depth - 1).Got?
    ensures ParseValue(x, depth)
      == Got(Obj(ParseObject(x[1..], depth - 1).value), ParseObject(x[1..], depth - 1).rest)
  {}

  lemma ArrayToken(x: string, depth: nat, inner: string, items: seq<Json>)
    requires depth > 0 && x != "" && x[0] == '['
    requires if items == [] then Blank(inner) else ItemsText(inner, items)
    requires ParseValue(x, depth).Got? && ParseValue(x, depth).value == Arr(Values(items))
    requires x[1..] == inner + ("]" + ParseValue(x, depth).rest) && ItemsDepth(items) < depth
    ensures ReadFrom(x, depth, "", "[" + (inner + "]"), Arr(items))
  {
    Rebracket(x, inner, "]", ParseValue(x, depth).rest);
  }

  lemma ObjectToken(x: string, depth: nat, inner: string, ms: seq<(string, Json)>)
    requires depth > 0 && x != "" && x[0] == '{'
    requires if ms == [] then Blank(inner) else MembersText(inner, ms)
    requires ParseValue(x, depth).Got? && ParseValue(x, depth).value == Obj(Collect([], ms))
    requires x[1..] == inner + ("}" + ParseValue(x, depth).rest) && MembersDepth(ms) < depth
    ensures ReadFrom(x, depth, "", "{" + (inner + "}"), Obj(ms))
  {
    Rebracket(x, inner, "}", ParseValue(x, depth).rest);
  }

  lemma Rebracket(x: string, inner: string, close: string, rest: string)
    requires x != "" && x[1..] == inner + (close + rest)
    ensures x == [x[0]] + (inner + close) + rest && x == "" + (([x[0]] + (inner + close)) + rest)
  {
    assert x == [x[0]] + x[1..];
  }

  lemma NumbersAreLeft(x: string, depth: nat)
    requires x != "" && SkipSpace(x) == x && x[0] !in ['"', '[', '{', 'n', 't', 'f']
    ensures ParseValue(x, depth) == ParseNumber(x)
  {}

  lemma NumberIsRead(x: string, depth: nat) returns (t: string)
    requires ParseValue(x, depth).Got? && SkipSpace(x) == x && x[0] !in ['"', '[', '{', 'n', 't', 'f']
    ensures ReadFrom(x, depth, "", t, Num(t))
  {
    NumbersAreLeft(x, depth);
    var n := NumberLength(x).value;
    t := x[..n];
    NumberIsText(x, n);
    NumberFrom(x, depth, n, t);
  }

  lemma NumberFrom(x: string, depth: nat, n: nat, t: string)
    requires n <= |x| && t == x[..n] && NumberText(t) && ParseValue(x, depth) == Got(Num(t), x[n..])
    ensures ReadFrom(x, depth, "", t, Num(t))
  {
    assert x == t + x[n..] && "" + (t + x[n..]) == x;
  }

  lemma {:induction false} ArrayIsText(s: string, depth: nat) returns (inner: string, items: seq<Json>)
    requires ParseArray(s, depth).Got?
    ensures if items == [] then Blank(inner) else ItemsText(inner, items)
    ensures s == inner + ("]" + ParseArray(s, depth).rest)
    ensures ItemsDepth(items) <= depth && Values(items) == ParseArray(s, depth).value
    decreases |s|, 4
  {
    var x := SkipSpace(s);
    if Starts(x, ']') {
      inner := Blanks(s);
      items := [];
      assert x == "]" + x[1..];
    } else {
      ValueBehind(s, depth);
      assert ParseItems(x, depth) == ParseItems(s, depth);
      inner, items := ItemsAreText(s, depth);
    }
  }

  // A text behind a value: white space and the next token.
  lemma ThenBlank(s: string, depth: nat, a: string, t: string, w: Json, b: string, next: string)
    requires ReadFrom(s, depth, a, t, w) && ParseValue(s, depth).rest == b + next && Blank(b)
    ensures s == a + (t + b) + next && Padded(a + (t + b), w)
  {}

  // Where the reading of items goes on behind one of them.
  lemma ItemsGoOn(s: string, depth: nat) returns (next: string)
    requires ParseItems(s, depth).Got?
    ensures ParseValue(s, depth).Got? && next == SkipSpace(ParseValue(s, depth).rest)
    ensures next != "" && |next| < |s| && next == [next[0]] + next[1..]
    ensures next[0] == ']' ==> ParseItems(s, depth) == Got([ParseValue(s, depth).value], next[1..])
    ensures next[0] != ']' ==> next[0] == ',' && ParseItems(next[1..], depth).Got?
    ensures next[0] != ']' ==>
      var (v, more) := (ParseValue(s, depth).value, ParseItems(next[1..], depth));
      ParseItems(s, depth) == Got([v] + more.value, more.rest)
  {
    next := SkipSpace(ParseValue(s, depth).rest);
  }

  lemma {:induction false} ItemsAreText(s: string, depth: nat) returns (text: string, items: seq<Json>)
    requires ParseItems(s, depth).Got?
    ensures items != [] && ItemsText(text, items) && s == text + ("]" + ParseItems(s, depth).rest)
    ensures ItemsDepth(items) <= depth && Values(items) == ParseItems(s, depth).value
    decreases |s|, 3
  {
    var first, w := PaddedIsText(s, depth);
    var next := ItemsGoOn(s, depth);
    if next[0] == ']' {
      text, items := first, [w];
      OneItem(first, w, depth);
    } else {
      var more, others := ItemsAreText(next[1..], depth);
      text, items := first + ("," + more), [w] + others;
      MoreItems(first, w, more, others, depth);
      Separated(first, more, "]", ParseItems(s, depth).rest);
    }
  }

  lemma OneItem(first: string, w: Json, depth: nat)
    requires Padded(first, w) && Depth(w) <= depth
    ensures ItemsText(first, [w]) && ItemsDepth([w]) <= depth && Values([w]) == [Value(w)]
  {
    assert [w][1..] == [];
  }

  lemma MoreItems(first: string, w: Json, more: string, others: seq<Json>, depth: nat)
    requires Padded(first, w) && others != [] && ItemsText(more, others)
    requires Depth(w) <= depth && ItemsDepth(others) <= depth
    ensures ItemsText(first + ("," + more), [w] + others) && ItemsDepth([w] + others) <= depth
    ensures Values([w] + others) == [Value(w)] + Values(others)
  {
    assert ([w] + others)[1..] == others && ([w] + others)[0] == w;
  }

  lemma {:induction false} ObjectIsText(s: string, depth: nat) returns (inner: string, ms: seq<(string, Json)>)
    requires ParseObject(s, depth).Got?
    ensures if ms == [] then Blank(inner) else MembersText(inner, ms)
    ensures s == inner + ("}" + ParseObject(s, depth).rest)
    ensures MembersDepth(ms) <= depth && Collect([], ms) == ParseObject(s, depth).value
    decreases |s|, 5
  {
    var x := SkipSpace(s);
    if Starts(x, '}') {
      inner := Blanks(s);
      ms := [];
      assert x == "}" + x[1..];
    } else {
      SkipTwice(s);
      assert ParseMember(x, depth) == ParseMember(s, depth);
      assert ParseMembers(x, depth, []) == ParseMembers(s, depth, []);
      inner, ms := MembersAreText(s, depth, []);
    }
  }

  lemma AMember(a: string, name: string, str: string, b: string, v: string, w: Json)
    requires Blank(a) && Blank(b) && QuotedText(name, str) && Padded(v, w)
    ensures MemberText(a + (name + (b + (":" + v))), (str, w))
  {}

  // What the parser went through to read a member.
  lemma MemberRead(s: string, depth: nat) returns (x: string, y: string, z: string)
    requires ParseMember(s, depth).Got?
    ensures x == SkipSpace(s) && ParseString(x).Got? && y == ParseString(x).rest && |y| < |s|
    ensures SkipSpace(y) == ":" + z && |z| < |s|
    ensures ParseValue(z, depth).Got?
    ensures ParseMember(s, depth) == Got((ParseString(x).value, ParseValue(z, depth).value), ParseValue(z, depth).rest)
  {
    x := SkipSpace(s);
    y := ParseString(x).rest;
    z := SkipSpace(y)[1..];
  }

  lemma {:induction false} MemberIsText(s: string, depth: nat) returns (text: string, m: (string, Json), next: string)
    requires ParseMember(s, depth).Got?
    ensures MemberText(text, m) && s == text + next && next == SkipSpace(ParseMember(s, depth).rest)
    ensures Depth(m.1) <= depth && ParseMember(s, depth).value == (m.0, MemberValue(m))
    decreases |s|, 3
  {
    var x, y, z := MemberRead(s, depth);
    var a := Blanks(s);
    var name := QuotedIsText(x);
    var b := Blanks(y);
    var v, w := PaddedIsText(z, depth);
    next := SkipSpace(ParseValue(z, depth).rest);
    text, m := a + (name + (b + (":" + v))), (ParseString(x).value, w);
    AMember(a, name, m.0, b, v, w);
    SpreadMember(a, name, b, v, next);
  }

  // A value with the white space around it.
  lemma {:induction false} PaddedIsText(s: string, depth: nat) returns (text: string, w: Json)
    requires ParseValue(s, depth).Got?
    ensures Padded(text, w) && s == text + SkipSpace(ParseValue(s, depth).rest)
    ensures Depth(w) <= depth && ParseValue(s, depth).value == Value(w)
    decreases |s|, 2, 1
  {
    var a, t;
    a, t, w := ValueIsText(s, depth);
    var b := Blanks(ParseValue(s, depth).rest);
    ThenBlank(s, depth, a, t, w, b, SkipSpace(ParseValue(s, depth).rest));
    text := a + (t + b);
  }

  // Where the reading of members goes on behind one of them.
  lemma MembersGoOn(s: string, depth: nat, acc: seq<(string, Json)>, m: (string, Json), next: string)
    requires ParseMembers(s, depth, acc).Got? && ParseMember(s, depth).Got?
    requires ParseMember(s, depth).value == (m.0, MemberValue(m)) && next == SkipSpace(ParseMember(s, depth).rest)
    ensures next != "" && |next| < |s|
    ensures var all := Insert(acc, m.0, MemberValue(m));
      if next[0] == '}' then ParseMembers(s, depth, acc) == Got(all, next[1..])
      else next[0] == ',' && ParseMembers(s, depth, acc) == ParseMembers(next[1..], depth, all)
  {}

  // The text of members, in front of the closing brace.
  ghost predicate MembersFrom(s: string, text: string, ms: seq<(string, Json)>, rest: string, depth: nat) {
    ms != [] && MembersText(text, ms) && MembersDepth(ms) <= depth && s == text + ("}" + rest)
  }

  lemma {:induction false} MembersAreText(s: string, depth: nat, acc: seq<(string, Json)>)
    returns (text: string, ms: seq<(string, Json)>)
    requires ParseMembers(s, depth, acc).Got?
    ensures MembersFrom(s, text, ms, ParseMembers(s, depth, acc).rest, depth)
    ensures Collect(acc, ms) == ParseMembers(s, depth, acc).value
    decreases |s|, 4
  {
    var first, m, next := MemberIsText(s, depth);
    var all := Insert(acc, m.0, MemberValue(m));
    MembersGoOn(s, depth, acc, m, next);
    if next[0] == '}' {
      text, ms := first, [m];
      OneMember(s, first, m, next, depth, acc);
    } else {
      var more, others := MembersAreText(next[1..], depth, all);
      text, ms := first + ("," + more), [m] + others;
      MoreMembers(s, first, m, next, more, others, ParseMembers(next[1..], depth, all).rest, depth, acc);
    }
  }

  lemma OneMember(s: string, first: string, m: (string, Json), next: string, depth: nat, acc: seq<(string, Json)>)
    requires MemberText(first, m) && Depth(m.1) <= depth && s == first + next && next != "" && next[0] == '}'
    ensures MembersFrom(s, first, [m], next[1..], depth)
    ensures Collect(acc, [m]) == Insert(acc, m.0, MemberValue(m))
  {
    assert [m][1..] == [] && next == "}" + next[1..];
  }

  lemma MoreMembers(s: string, first: string, m: (string, Json), next: string, more: string,
      others: seq<(string, Json)>, rest: string, depth: nat, acc: seq<(string, Json)>)
    requires MemberText(first, m) && Depth(m.1) <= depth && s == first + next && next != "" && next[0] == ','
    requires MembersFrom(next[1..], more, others, rest, depth)
    ensures MembersFrom(s, first + ("," + more), [m] + others, rest, depth)
    ensures Collect(acc, [m] + others) == Collect(Insert(acc, m.0, MemberValue(m)), others)
  {
    assert ([m] + others)[1..] == others && ([m] + others)[0] == m;
    assert next == "," + next[1..];
    Separated(first, more, "}", rest);
  }

  // ------------------------------------------------------------- documents

  /** The document is written for a tree of allowed depth with this value. */
  ghost predicate Denotes(text: string, depth: nat, v: Json) {
    exists w :: Padded(text, w) && Depth(w) <= depth && Value(w) == v
  }

  // The parser accepts exactly the texts of the grammar up to the depth, and
  // gives their values.
  lemma ParseIffDenotes(text: string, depth: nat, v: Json)
    ensures Parse(text, depth) == Some(v) <==> Denotes(text, depth, v)
  {
    if Parse(text, depth) == Some(v) {
      var t, w := PaddedIsText(text, depth);
      assert t + "" == t;
    }
    if Denotes(text, depth, v) {
      var w :| Padded(text, w) && Depth(w) <= depth && Value(w) == v;
      PaddedParses(w, text, "", depth);
      assert text + "" == text;
    }
  }
}

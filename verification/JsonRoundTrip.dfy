// The JSON parser inverts the compact printer.
module JsonRoundTrip {
  import opened Basics
  import opened Json
  import opened JsonParser

  lemma PrintStarts(v: Json)
    requires WellFormed(v)
    ensures Print(v) != "" && !IsSpace(Print(v)[0]) && Print(v)[0] != ']' && Print(v)[0] != '}'
  {
    if v.Num? {
      assert v.token[0] == '-' || IsDigit(v.token[0]);
    }
  }

  lemma SkipsNothing(s: string)
    requires s != "" && !IsSpace(s[0])
    ensures SkipSpace(s) == s
  {}

  lemma NumberDispatch(s: string, depth: nat)
    requires s != "" && (s[0] == '-' || IsDigit(s[0]))
    ensures ParseValue(s, depth) == ParseNumber(s)
  {
    SkipsNothing(s);
    assert s[0] !in "\"[{ntf";
  }

  lemma NumberParses(t: string, rest: string, depth: nat)
    requires IsNumber(t) && EndsNumber(rest)
    ensures ParseValue(t + rest, depth) == Got(Num(t), rest)
  {
    assert (t + rest)[0] == t[0];
    NumberExtends(t, rest);
    NumberDispatch(t + rest, depth);
    DropPrefix(t, rest);
  }

  lemma StringParses(str: string, rest: string, depth: nat)
    ensures ParseValue(Quoted(str, SerdeEscapes) + rest, depth) == Got(Str(str), rest)
  {
    var s := Quoted(str, SerdeEscapes) + rest;
    Unwrap('"', EscapeAll(str, SerdeEscapes), "\"", rest);
    SkipsNothing(s);
    QuotedReadsBack(str, SerdeEscapes, rest);
  }

  lemma LiteralParses(rest: string, depth: nat)
    ensures ParseValue("null" + rest, depth) == Got(Null, rest)
    ensures ParseValue("true" + rest, depth) == Got(Bool(true), rest)
    ensures ParseValue("false" + rest, depth) == Got(Bool(false), rest)
  {
    SkipsNothing("null" + rest);
    SkipsNothing("true" + rest);
    SkipsNothing("false" + rest);
    DropPrefix("null", rest);
    DropPrefix("true", rest);
    DropPrefix("false", rest);
  }

  // The parser reads a printed value back exactly, and gives up exactly when
  // the value nests deeper than the parser allows.
  lemma {:induction false} PrintParses(v: Json, rest: string, depth: nat)
    requires WellFormed(v) && EndsNumber(rest)
    ensures ParseValue(Print(v) + rest, depth) == if Depth(v) <= depth then Got(v, rest) else Fail
    decreases v, 1
  {
    match v
    case Arr(items) =>
      var s := Print(v) + rest;
      Unwrap('[', PrintItems(items), "]", rest);
      SkipsNothing(s);
      if depth > 0 {
        ArrayParses(items, rest, depth - 1);
      }
    case Obj(ms) =>
      var s := Print(v) + rest;
      Unwrap('{', PrintMembers(ms), "}", rest);
      SkipsNothing(s);
      if depth > 0 {
        ObjectParses(ms, rest, depth - 1);
      }
    case Num(t) => NumberParses(t, rest, depth);
    case Str(str) => StringParses(str, rest, depth);
    case _ => LiteralParses(rest, depth);
  }

  lemma {:induction false} ArrayParses(items: seq<Json>, rest: string, depth: nat)
    requires forall i :: 0 <= i < |items| ==> WellFormed(items[i])
    ensures ParseArray(PrintItems(items) + "]" + rest, depth)
         == if ItemsDepth(items) <= depth then Got(items, rest) else Fail
    decreases items, 3
  {
    var s := PrintItems(items) + "]" + rest;
    if items == [] {
      assert s[1..] == rest;
    } else {
      PrintStarts(items[0]);
      assert s[0] == Print(items[0])[0];
      SkipsNothing(s);
      ItemsParse(items, rest, depth);
    }
  }

  // One item or member in front of what the parser sees next.
  lemma Lead(first: string, more: string, close: string, rest: string)
    ensures first + ("," + more) + close + rest == first + ("," + (more + close + rest))
    ensures first + "" + close + rest == first + (close + rest)
    ensures ("," + (more + close + rest))[1..] == more + close + rest
  {}

  lemma {:induction false} ItemsParse(items: seq<Json>, rest: string, depth: nat)
    requires items != [] && forall i :: 0 <= i < |items| ==> WellFormed(items[i])
    ensures ParseItems(PrintItems(items) + "]" + rest, depth)
         == if ItemsDepth(items) <= depth then Got(items, rest) else Fail
    decreases items, 2
  {
    var first := Print(items[0]);
    Lead(first, PrintItems(items[1..]), "]", rest);
    assert items == [items[0]] + items[1..];
    if |items| == 1 {
      assert items[1..] == [] && items == [items[0]];
      assert ItemsDepth(items) == Depth(items[0]);
      var tail := "]" + rest;
      assert tail[1..] == rest;
      PrintParses(items[0], tail, depth);
      SkipsNothing(tail);
      assert PrintItems(items) + "]" + rest == first + tail;
    } else {
      var tail := "," + (PrintItems(items[1..]) + "]" + rest);
      PrintParses(items[0], tail, depth);
      SkipsNothing(tail);
      ItemsParse(items[1..], rest, depth);
      assert PrintItems(items) + "]" + rest == first + tail;
    }
  }

  lemma {:induction false} MemberParses(m: (string, Json), rest: string, depth: nat)
    requires WellFormed(m.1) && EndsNumber(rest)
    ensures ParseMember(PrintMember(m) + rest, depth) == if Depth(m.1) <= depth then Got(m, rest) else Fail
    decreases m, 2
  {
    var s := PrintMember(m) + rest;
    var afterName := ":" + (Print(m.1) + rest);
    assert s == Quoted(m.0, SerdeEscapes) + afterName;
    SkipsNothing(s);
    QuotedReadsBack(m.0, SerdeEscapes, afterName);
    SkipsNothing(afterName);
    assert afterName[1..] == Print(m.1) + rest;
    PrintParses(m.1, rest, depth);
  }

  lemma {:induction false} ObjectParses(ms: seq<(string, Json)>, rest: string, depth: nat)
    requires DistinctKeys(ms) && forall i :: 0 <= i < |ms| ==> WellFormed(ms[i].1)
    ensures ParseObject(PrintMembers(ms) + "}" + rest, depth)
         == if MembersDepth(ms) <= depth then Got(ms, rest) else Fail
    decreases ms, 3
  {
    var s := PrintMembers(ms) + "}" + rest;
    if ms == [] {
      assert s[1..] == rest;
    } else {
      assert PrintMember(ms[0])[0] == '"';
      assert s[0] == PrintMember(ms[0])[0];
      SkipsNothing(s);
      assert [] + ms == ms;
      MembersParse(ms, [], rest, depth);
    }
  }

  lemma {:induction false} MembersParse(ms: seq<(string, Json)>, acc: seq<(string, Json)>, rest: string, depth: nat)
    requires ms != [] && DistinctKeys(acc + ms)
    requires forall i :: 0 <= i < |ms| ==> WellFormed(ms[i].1)
    ensures ParseMembers(PrintMembers(ms) + "}" + rest, depth, acc)
         == if MembersDepth(ms) <= depth then Got(acc + ms, rest) else Fail
    decreases ms, 2
  {
    var first, m := PrintMember(ms[0]), ms[0];
    Lead(first, PrintMembers(ms[1..]), "}", rest);
    InsertNext(acc, ms);
    if |ms| == 1 {
      assert ms[1..] == [];
      var tail := "}" + rest;
      assert tail[1..] == rest;
      MemberParses(m, tail, depth);
      SkipsNothing(tail);
      assert PrintMembers(ms) + "}" + rest == first + tail;
    } else {
      var tail := "," + (PrintMembers(ms[1..]) + "}" + rest);
      MemberParses(m, tail, depth);
      SkipsNothing(tail);
      MembersParse(ms[1..], acc + [m], rest, depth);
      assert PrintMembers(ms) + "}" + rest == first + tail;
    }
  }

  lemma InsertNext(acc: seq<(string, Json)>, ms: seq<(string, Json)>)
    requires ms != [] && DistinctKeys(acc + ms)
    ensures Insert(acc, ms[0].0, ms[0].1) == acc + [ms[0]]
    ensures acc + [ms[0]] + ms[1..] == acc + ms
    ensures |ms| == 1 ==> acc + [ms[0]] == acc + ms
  {
    assert (acc + ms)[|acc|] == ms[0];
    assert forall i :: 0 <= i < |acc| ==> acc[i] == (acc + ms)[i];
    InsertFresh(acc, ms[0].0, ms[0].1);
  }

  lemma ParsePrint(v: Json, depth: nat)
    requires WellFormed(v)
    ensures Parse(Print(v), depth) == if Depth(v) <= depth then Some(v) else None
  {
    PrintParses(v, "", depth);
    assert Print(v) + "" == Print(v);
  }
}

// The texts of JSON values (RFC 8259), white space and repeated member names
// included, and what they mean.
module JsonGrammar {
  import opened Basics
  import opened Json
  import opened JsonNumbers
  import opened JsonText

  // ------------------------------------------------------------- grammar

  predicate Blank(s: string) {
    forall i :: 0 <= i < |s| ==> s[i] in [' ', '\t', '\n', '\r']
  }

  /** The text, between optional white space, is written for this tree. A tree
      is a JSON value that still has every member it was written with. */
  ghost predicate Padded(text: string, w: Json)
    decreases w, 1
  {
    exists a, t, b :: text == a + (t + b) && Blank(a) && Blank(b) && Written(t, w)
  }

  ghost predicate Written(t: string, w: Json)
    decreases w, 0
  {
    match w
    case Null => t == "null"
    case Bool(b) => t == if b then "true" else "false"
    case Num(token) => t == token && NumberText(token)
    case Str(s) => QuotedText(t, s)
    case Arr(items) =>
      exists inner :: t == "[" + (inner + "]") && (if items == [] then Blank(inner) else ItemsText(inner, items))
    case Obj(ms) =>
      exists inner :: t == "{" + (inner + "}") && (if ms == [] then Blank(inner) else MembersText(inner, ms))
  }

  ghost predicate ItemsText(text: string, items: seq<Json>)
    requires items != []
    decreases items, 2
  {
    if |items| == 1 then Padded(text, items[0])
    else exists first, more ::
      text == first + ("," + more) && Padded(first, items[0]) && ItemsText(more, items[1..])
  }

  /** A name, a colon and a value. */
  ghost predicate MemberText(text: string, m: (string, Json))
    decreases m, 2
  {
    exists a, name, b, v ::
      text == a + (name + (b + (":" + v))) && Blank(a) && Blank(b) && QuotedText(name, m.0) && Padded(v, m.1)
  }

  ghost predicate MembersText(text: string, ms: seq<(string, Json)>)
    requires ms != []
    decreases ms, 3
  {
    if |ms| == 1 then MemberText(text, ms[0])
    else exists first, more ::
      text == first + ("," + more) && MemberText(first, ms[0]) && MembersText(more, ms[1..])
  }

  // ------------------------------------------------------ what a tree means

  /** The value of a tree: a repeated member name keeps its place and takes the
      last value. */
  function Value(w: Json): Json
    decreases w, 1
  {
    match w
    case Arr(items) => Arr(Values(items))
    case Obj(ms) => Obj(Collect([], ms))
    case _ => w
  }

  function Values(items: seq<Json>): seq<Json>
    decreases items, 0
  {
    if items == [] then [] else [Value(items[0])] + Values(items[1..])
  }

  function MemberValue(m: (string, Json)): Json
    decreases m, 2
  {
    Value(m.1)
  }

  function Collect(acc: seq<(string, Json)>, ms: seq<(string, Json)>): seq<(string, Json)>
    decreases ms, 0
  {
    if ms == [] then acc else Collect(Insert(acc, ms[0].0, MemberValue(ms[0])), ms[1..])
  }

  // ------------------------------------------------ members of an object

  function NamesOf(ms: seq<(string, Json)>): (r: seq<string>)
    ensures |r| == |ms| && forall i :: 0 <= i < |r| ==> r[i] == ms[i].0
  {
    if ms == [] then [] else [ms[0].0] + NamesOf(ms[1..])
  }

  /** What the last member of a name says. */
  function LastOf(ms: seq<(string, Json)>, name: string): Option<Json> {
    if ms == [] then None
    else if ms[|ms| - 1].0 == name then Some(Value(ms[|ms| - 1].1))
    else LastOf(ms[..|ms| - 1], name)
  }

  /** The names, each where it comes first. */
  function FirstNames(ms: seq<(string, Json)>): seq<string> {
    if ms == [] then []
    else
      var front, last := FirstNames(ms[..|ms| - 1]), ms[|ms| - 1].0;
      if last in front then front else front + [last]
  }

  lemma {:induction false} InsertMeans(ms: seq<(string, Json)>, name: string, v: Json, n: string)
    ensures Get(Insert(ms, name, v), n) == if n == name then Some(v) else Get(ms, n)
    ensures NamesOf(Insert(ms, name, v)) == NamesOf(ms) + if name in NamesOf(ms) then [] else [name]
  {
    if ms != [] && ms[0].0 != name {
      InsertMeans(ms[1..], name, v, n);
      assert Insert(ms, name, v)[1..] == Insert(ms[1..], name, v);
      assert NamesOf(ms) == [ms[0].0] + NamesOf(ms[1..]);
    } else if ms != [] {
      assert Insert(ms, name, v)[1..] == ms[1..];
    }
  }

  lemma {:induction false} CollectSnoc(acc: seq<(string, Json)>, ms: seq<(string, Json)>, m: (string, Json))
    ensures Collect(acc, ms + [m]) == Insert(Collect(acc, ms), m.0, MemberValue(m))
    decreases |ms|
  {
    var all := ms + [m];
    if ms == [] {
      assert all[1..] == [] && all[0] == m;
    } else {
      assert all[0] == ms[0] && all[1..] == ms[1..] + [m];
      CollectSnoc(Insert(acc, ms[0].0, MemberValue(ms[0])), ms[1..], m);
    }
  }

  // Every name keeps its first place and its last value.
  lemma {:induction false} CollectMeans(ms: seq<(string, Json)>, name: string)
    ensures Get(Collect([], ms), name) == LastOf(ms, name)
    ensures NamesOf(Collect([], ms)) == FirstNames(ms)
  {
    if ms != [] {
      var front, m := ms[..|ms| - 1], ms[|ms| - 1];
      assert ms == front + [m];
      CollectMeans(front, name);
      CollectSnoc([], front, m);
      InsertMeans(Collect([], front), m.0, MemberValue(m), name);
    }
  }
}

// A JSON parser with the strictness of serde_json. It takes the deepest nesting
// it accepts as a parameter, because every JSON library has such a limit while
// no printer checks it.
module JsonParser {
  import opened Basics
  import opened Json

  predicate IsSpace(c: char) { c == ' ' || c == '\n' || c == '\r' || c == '\t' }

  function SkipSpace(s: string): (r: string)
    ensures |r| <= |s|
  {
    if s != "" && IsSpace(s[0]) then SkipSpace(s[1..]) else s
  }

  predicate Starts(s: string, c: char) { s != "" && s[0] == c }

  function Literal(s: string, word: string, v: Json): (r: Parsed<Json>)
    requires word != ""
    ensures r.Got? ==> |r.rest| < |s|
  {
    if word <= s then Got(v, s[|word|..]) else Fail
  }

  function ParseNumber(s: string): (r: Parsed<Json>)
    ensures r.Got? ==> |r.rest| < |s|
  {
    match NumberLength(s)
    case None => Fail
    case Some(n) => Got(Num(s[..n]), s[n..])
  }

  function ParseValue(input: string, depth: nat): (r: Parsed<Json>)
    ensures r.Got? ==> |r.rest| < |input|
    decreases |input|, 1
  {
    ParseToken(SkipSpace(input), depth)
  }

  /** A value with no white space in front of it. */
  function ParseToken(s: string, depth: nat): (r: Parsed<Json>)
    ensures r.Got? ==> |r.rest| < |s|
    decreases |s|, 0
  {
    if s == "" then Fail
    else if s[0] == '"' then
      match ParseChars(s[1..])
      case Fail => Fail
      case Got(str, rest) => Got(Str(str), rest)
    else if s[0] == '[' then
      if depth == 0 then Fail
      else
        match ParseArray(s[1..], depth - 1)
        case Fail => Fail
        case Got(items, rest) => Got(Arr(items), rest)
    else if s[0] == '{' then
      if depth == 0 then Fail
      else
        match ParseObject(s[1..], depth - 1)
        case Fail => Fail
        case Got(ms, rest) => Got(Obj(ms), rest)
    else if s[0] == 'n' then Literal(s, "null", Null)
    else if s[0] == 't' then Literal(s, "true", Bool(true))
    else if s[0] == 'f' then Literal(s, "false", Bool(false))
    else ParseNumber(s)
  }

  function ParseArray(input: string, depth: nat): (r: Parsed<seq<Json>>)
    ensures r.Got? ==> |r.rest| < |input|
    decreases |input|, 3
  {
    var s := SkipSpace(input);
    if Starts(s, ']') then Got([], s[1..]) else ParseItems(s, depth)
  }

  function ParseItems(input: string, depth: nat): (r: Parsed<seq<Json>>)
    ensures r.Got? ==> |r.rest| < |input|
    decreases |input|, 2
  {
    match ParseValue(input, depth)
    case Fail => Fail
    case Got(v, after) =>
      var s := SkipSpace(after);
      if Starts(s, ']') then Got([v], s[1..])
      else if !Starts(s, ',') then Fail
      else
        match ParseItems(s[1..], depth)
        case Fail => Fail
        case Got(items, rest) => Got([v] + items, rest)
  }

  function ParseObject(input: string, depth: nat): (r: Parsed<seq<(string, Json)>>)
    ensures r.Got? ==> |r.rest| < |input|
    decreases |input|, 3
  {
    var s := SkipSpace(input);
    if Starts(s, '}') then Got([], s[1..]) else ParseMembers(s, depth, [])
  }

  function ParseMember(input: string, depth: nat): (r: Parsed<(string, Json)>)
    ensures r.Got? ==> |r.rest| < |input|
    decreases |input|, 0
  {
    match ParseString(SkipSpace(input))
    case Fail => Fail
    case Got(name, afterName) =>
      var s := SkipSpace(afterName);
      if !Starts(s, ':') then Fail
      else
        match ParseValue(s[1..], depth)
        case Fail => Fail
        case Got(v, rest) => Got((name, v), rest)
  }

  function ParseMembers(input: string, depth: nat, acc: seq<(string, Json)>): (r: Parsed<seq<(string, Json)>>)
    ensures r.Got? ==> |r.rest| < |input|
    decreases |input|, 2
  {
    match ParseMember(input, depth)
    case Fail => Fail
    case Got(m, after) =>
      var all := Insert(acc, m.0, m.1);
      var s := SkipSpace(after);
      if Starts(s, '}') then Got(all, s[1..])
      else if !Starts(s, ',') then Fail
      else ParseMembers(s[1..], depth, all)
  }

  /** `serde_json::from_slice`: one value and nothing but space after it. */
  function Parse(text: string, depth: nat): Option<Json> {
    match ParseValue(text, depth)
    case Fail => None
    case Got(v, rest) => if SkipSpace(rest) == "" then Some(v) else None
  }
}

// The call envelope is a JSON object: what any reader of the standard learns
// from it (`Frame::to_json` in runtime/rust/transports.rs).
module CallEnvelope {
  import opened Basics
  import opened Json
  import opened CallFrames
  import opened JsonDenotes
  import opened JsonGrammar
  import opened JsonNumbers
  import opened JsonParser
  import opened JsonText

  // ------------------------------------------------- members and their texts

  function MemberOf(name: string, text: string): string {
    (CLOSE + name + CLOSE) + (":" + text)
  }

  predicate PlainName(name: string) {
    forall i :: 0 <= i < |name| ==> Plainly([name[i]], name[i])
  }

  lemma PlainQuoted(name: string)
    requires PlainName(name)
    ensures QuotedText(CLOSE + name + CLOSE, name)
  {
    PlainIsText(name);
  }

  lemma NoPadding(quoted: string, text: string)
    ensures quoted + (":" + text) == "" + (quoted + ("" + (":" + text)))
  {}

  lemma MemberSpread(quoted: string, name: string, text: string, w: Json)
    requires QuotedText(quoted, name) && Padded(text, w)
    ensures MemberText(quoted + (":" + text), (name, w))
  {
    NoPadding(quoted, text);
    AMember("", quoted, name, "", text, w);
  }

  lemma MemberWritten(name: string, text: string, w: Json)
    requires PlainName(name) && Padded(text, w)
    ensures MemberText(MemberOf(name, text), (name, w))
  {
    PlainQuoted(name);
    MemberSpread(CLOSE + name + CLOSE, name, text, w);
  }

  function Join(parts: seq<string>): string
    requires parts != []
  {
    if |parts| == 1 then parts[0] else parts[0] + ("," + Join(parts[1..]))
  }

  ghost predicate AllWritten(parts: seq<string>, ms: seq<(string, Json)>) {
    |parts| == |ms| && forall i :: 0 <= i < |ms| ==> MemberText(parts[i], ms[i])
  }

  lemma {:induction false} JoinWritten(parts: seq<string>, ms: seq<(string, Json)>)
    requires ms != [] && AllWritten(parts, ms)
    ensures MembersText(Join(parts), ms)
  {
    if |ms| > 1 {
      JoinWritten(parts[1..], ms[1..]);
    }
  }

  lemma OneWritten(part: string, m: (string, Json))
    requires MemberText(part, m)
    ensures AllWritten([part], [m])
  {}

  lemma BothWritten(parts: seq<string>, ms: seq<(string, Json)>, more: seq<string>, others: seq<(string, Json)>)
    requires AllWritten(parts, ms) && AllWritten(more, others)
    ensures AllWritten(parts + more, ms + others)
  {}

  // From a comma in front of some members to the closing brace.
  function Rest(parts: seq<string>): string
    requires parts != []
  {
    "," + (Join(parts) + "}")
  }

  lemma RestStep(part: string, parts: seq<string>)
    requires parts != []
    ensures "," + (part + Rest(parts)) == Rest([part] + parts)
  {
    assert ([part] + parts)[1..] == parts;
  }

  lemma Bare(text: string, w: Json)
    requires Written(text, w)
    ensures Padded(text, w)
  {
    assert text == "" + (text + "");
  }

  // ---------------------------------------------------------- the envelope

  function Text(value: string): string { Quoted(value, QuoteEscapes) }

  function StringParts(fields: seq<(string, string)>): seq<string> {
    if fields == [] then [] else [MemberOf(fields[0].0, Text(fields[0].1))] + StringParts(fields[1..])
  }

  function StringMembers(fields: seq<(string, string)>): seq<(string, Json)> {
    if fields == [] then [] else [(fields[0].0, Str(fields[0].1))] + StringMembers(fields[1..])
  }

  /** The four quoted fields under their names. */
  function Strings(f: CallFrame): seq<(string, string)> {
    [("requestId", f.requestId)] + ([("key", f.key)] + ([("method", f.method_)] + [("path", f.path)]))
  }

  function Parts(f: CallFrame): seq<string> {
    [MemberOf("v", Decimal(f.version))] + ([MemberOf("type", CLOSE + "call" + CLOSE)]
      + (StringParts(Strings(f)) + [MemberOf("body", BodyText(f))]))
  }

  function Members(f: CallFrame, body: Json): seq<(string, Json)> {
    [("v", Num(Decimal(f.version)))] + ([("type", Str("call"))] + (StringMembers(Strings(f)) + [("body", body)]))
  }

  lemma StringsCons(name: string, value: string, rest: seq<(string, string)>)
    ensures StringParts([(name, value)] + rest) == [MemberOf(name, Text(value))] + StringParts(rest)
    ensures StringMembers([(name, value)] + rest) == [(name, Str(value))] + StringMembers(rest)
  {
    assert ([(name, value)] + rest)[1..] == rest;
  }

  lemma OneString(name: string, value: string)
    ensures StringParts([(name, value)]) == [MemberOf(name, Text(value))]
    ensures StringMembers([(name, value)]) == [(name, Str(value))]
  {
    assert [(name, value)][1..] == [];
  }

  lemma StringsUnrolled(f: CallFrame)
    ensures StringParts(Strings(f)) == [MemberOf("requestId", Text(f.requestId))] + ([MemberOf("key", Text(f.key))]
      + ([MemberOf("method", Text(f.method_))] + [MemberOf("path", Text(f.path))]))
    ensures StringMembers(Strings(f)) == [("requestId", Str(f.requestId))] + ([("key", Str(f.key))]
      + ([("method", Str(f.method_))] + [("path", Str(f.path))]))
  {
    var three := [("path", f.path)];
    OneString("path", f.path);
    StringsCons("method", f.method_, three);
    StringsCons("key", f.key, [("method", f.method_)] + three);
    StringsCons("requestId", f.requestId, [("key", f.key)] + ([("method", f.method_)] + three));
  }

  lemma StringWritten(name: string, value: string)
    requires PlainName(name)
    ensures MemberText(MemberOf(name, Quoted(value, QuoteEscapes)), (name, Str(value)))
  {
    QuotedIsQuoted(value, QuoteEscapes);
    Bare(Quoted(value, QuoteEscapes), Str(value));
    MemberWritten(name, Quoted(value, QuoteEscapes), Str(value));
  }

  lemma PlainWritten(name: string, value: string)
    requires PlainName(name) && PlainName(value)
    ensures MemberText(MemberOf(name, CLOSE + value + CLOSE), (name, Str(value)))
  {
    PlainQuoted(value);
    Bare(CLOSE + value + CLOSE, Str(value));
    MemberWritten(name, CLOSE + value + CLOSE, Str(value));
  }

  lemma VersionWritten(name: string, version: nat)
    requires PlainName(name)
    ensures MemberText(MemberOf(name, Decimal(version)), (name, Num(Decimal(version))))
  {
    DecimalIsNumber(version);
    NumberIffText(Decimal(version));
    Bare(Decimal(version), Num(Decimal(version)));
    MemberWritten(name, Decimal(version), Num(Decimal(version)));
  }

  lemma LabelledIs(lead: string, name: string, value: string, rest: string)
    requires lead == "," + (CLOSE + name + CLOSE) + ":"
    ensures Labelled(lead, value, rest) == "," + (MemberOf(name, Quoted(value, QuoteEscapes)) + rest)
  {}

  const ID_ONLY := ",\"requestId\":"

  lemma Shift(a: string, b: string, c: string, d: string)
    ensures (a + (b + c)) + d == a + (b + (c + d))
  {}

  lemma TypeFirst(value: string, rest: string)
    ensures Labelled(REQUEST_ID, value, rest)
      == "," + (MemberOf("type", CLOSE + "call" + CLOSE) + Labelled(ID_ONLY, value, rest))
  {
    var member := MemberOf("type", CLOSE + "call" + CLOSE);
    assert REQUEST_ID == "," + (member + ID_ONLY);
    Shift(",", member, ID_ONLY, Quoted(value, QuoteEscapes) + rest);
  }

  lemma LabelledRest(lead: string, name: string, value: string, parts: seq<string>)
    requires lead == "," + (CLOSE + name + CLOSE) + ":" && parts != []
    ensures Labelled(lead, value, Rest(parts)) == Rest([MemberOf(name, Text(value))] + parts)
  {
    LabelledIs(lead, name, value, Rest(parts));
    RestStep(MemberOf(name, Text(value)), parts);
  }

  lemma BodyRest(text: string)
    ensures BODY + (text + "}") == Rest([MemberOf("body", text)])
  {}

  lemma TypeRest(value: string, parts: seq<string>)
    requires parts != []
    ensures Labelled(REQUEST_ID, value, Rest(parts))
      == Rest([MemberOf("type", CLOSE + "call" + CLOSE)] + ([MemberOf("requestId", Text(value))] + parts))
  {
    TypeFirst(value, Rest(parts));
    LabelledRest(ID_ONLY, "requestId", value, parts);
    RestStep(MemberOf("type", CLOSE + "call" + CLOSE), [MemberOf("requestId", Text(value))] + parts);
  }

  lemma OpenFirst(version: nat, rest: string)
    ensures OPEN + (Decimal(version) + rest) == "{" + (MemberOf("v", Decimal(version)) + rest)
  {
    assert OPEN == "{" + ((CLOSE + "v" + CLOSE) + ":");
  }

  lemma BraceFirst(part: string, parts: seq<string>)
    requires parts != []
    ensures "{" + (part + Rest(parts)) == "{" + (Join([part] + parts) + "}")
  {
    RestStep(part, parts);
    var x, y := part + Rest(parts), Join([part] + parts) + "}";
    assert ("," + x)[1..] == x && ("," + y)[1..] == y;
  }

  lemma Regroup<T>(a: seq<T>, b: seq<T>, c: seq<T>, d: seq<T>, e: seq<T>)
    ensures a + (b + (c + d)) + e == a + (b + (c + (d + e)))
  {}

  function AfterType(f: CallFrame): seq<string> { StringParts(Strings(f)) + [MemberOf("body", BodyText(f))] }

  lemma AfterTypeIs(f: CallFrame)
    ensures AfterType(f) == [MemberOf("requestId", Text(f.requestId))] + ([MemberOf("key", Text(f.key))]
      + ([MemberOf("method", Text(f.method_))] + ([MemberOf("path", Text(f.path))] + [MemberOf("body", BodyText(f))])))
  {
    StringsUnrolled(f);
    Regroup([MemberOf("requestId", Text(f.requestId))], [MemberOf("key", Text(f.key))],
      [MemberOf("method", Text(f.method_))], [MemberOf("path", Text(f.path))], [MemberOf("body", BodyText(f))]);
  }

  // The three fields behind the request id, written in front of other members.
  lemma FieldsJoined(key: string, method_: string, path: string, parts: seq<string>)
    requires parts != []
    ensures Labelled(KEY, key, Labelled(METHOD, method_, Labelled(PATH, path, Rest(parts))))
      == Rest([MemberOf("key", Text(key))]
        + ([MemberOf("method", Text(method_))] + ([MemberOf("path", Text(path))] + parts)))
  {
    var p5 := [MemberOf("path", Text(path))] + parts;
    LabelledRest(PATH, "path", path, parts);
    LabelledRest(METHOD, "method", method_, p5);
    LabelledRest(KEY, "key", key, [MemberOf("method", Text(method_))] + p5);
  }

  lemma AfterTypeJoined(f: CallFrame)
    ensures Labelled(REQUEST_ID, f.requestId, Labelled(KEY, f.key, Labelled(METHOD, f.method_,
      Labelled(PATH, f.path, BODY + (BodyText(f) + "}")))))
      == Rest([MemberOf("type", CLOSE + "call" + CLOSE)] + AfterType(f))
  {
    var body := [MemberOf("body", BodyText(f))];
    BodyRest(BodyText(f));
    FieldsJoined(f.key, f.method_, f.path, body);
    TypeRest(f.requestId, [MemberOf("key", Text(f.key))]
      + ([MemberOf("method", Text(f.method_))] + ([MemberOf("path", Text(f.path))] + body)));
    AfterTypeIs(f);
  }

  lemma EnvelopeIsJoined(f: CallFrame)
    ensures ToJson(f) == "{" + (Join(Parts(f)) + "}")
  {
    var six := [MemberOf("type", CLOSE + "call" + CLOSE)] + AfterType(f);
    AfterTypeJoined(f);
    OpenFirst(f.version, Rest(six));
    BraceFirst(MemberOf("v", Decimal(f.version)), six);
  }

  lemma {:induction false} StringsWritten(fields: seq<(string, string)>)
    requires forall i :: 0 <= i < |fields| ==> PlainName(fields[i].0)
    ensures AllWritten(StringParts(fields), StringMembers(fields))
  {
    if fields != [] {
      var (name, value) := fields[0];
      StringWritten(name, value);
      OneWritten(MemberOf(name, Text(value)), (name, Str(value)));
      StringsWritten(fields[1..]);
      BothWritten([MemberOf(name, Text(value))], [(name, Str(value))],
        StringParts(fields[1..]), StringMembers(fields[1..]));
    }
  }

  lemma NamesArePlain(f: CallFrame)
    ensures forall i :: 0 <= i < |Strings(f)| ==> PlainName(Strings(f)[i].0)
  {
    assert forall name :: name in ["requestId", "key", "method", "path"] ==> PlainName(name);
    assert forall i :: 0 <= i < |Strings(f)| ==> Strings(f)[i].0 in ["requestId", "key", "method", "path"];
  }

  lemma VersionPart(version: nat)
    ensures AllWritten([MemberOf("v", Decimal(version))], [("v", Num(Decimal(version)))])
  {
    VersionWritten("v", version);
    OneWritten(MemberOf("v", Decimal(version)), ("v", Num(Decimal(version))));
  }

  lemma TypePart()
    ensures AllWritten([MemberOf("type", CLOSE + "call" + CLOSE)], [("type", Str("call"))])
  {
    PlainWritten("type", "call");
    OneWritten(MemberOf("type", CLOSE + "call" + CLOSE), ("type", Str("call")));
  }

  lemma BodyPart(text: string, body: Json)
    requires Padded(text, body)
    ensures AllWritten([MemberOf("body", text)], [("body", body)])
  {
    MemberWritten("body", text, body);
    OneWritten(MemberOf("body", text), ("body", body));
  }

  lemma PartsWritten(f: CallFrame, body: Json)
    requires Padded(BodyText(f), body)
    ensures AllWritten(Parts(f), Members(f, body))
  {
    var p0, m0 := [MemberOf("v", Decimal(f.version))], [("v", Num(Decimal(f.version)))];
    var p1, m1 := [MemberOf("type", CLOSE + "call" + CLOSE)], [("type", Str("call"))];
    var p2, m2 := StringParts(Strings(f)), StringMembers(Strings(f));
    var p6, m6 := [MemberOf("body", BodyText(f))], [("body", body)];
    VersionPart(f.version);
    TypePart();
    NamesArePlain(f);
    StringsWritten(Strings(f));
    BodyPart(BodyText(f), body);
    BothWritten(p2, m2, p6, m6);
    BothWritten(p1, m1, p2 + p6, m2 + m6);
    BothWritten(p0, m0, p1 + (p2 + p6), m1 + (m2 + m6));
  }

  lemma EnvelopeWritten(f: CallFrame, body: Json)
    requires Padded(BodyText(f), body)
    ensures Padded(ToJson(f), Obj(Members(f, body)))
  {
    PartsWritten(f, body);
    JoinWritten(Parts(f), Members(f, body));
    EnvelopeIsJoined(f);
    ObjectWritten(ToJson(f), Join(Parts(f)), Members(f, body));
  }

  lemma ObjectWritten(text: string, inner: string, ms: seq<(string, Json)>)
    requires ms != [] && MembersText(inner, ms) && text == "{" + (inner + "}")
    ensures Padded(text, Obj(ms))
  {
    Bare(text, Obj(ms));
  }

  lemma {:induction false} LastDeepest(ms: seq<(string, Json)>)
    requires ms != [] && forall i :: 0 <= i < |ms| - 1 ==> Depth(ms[i].1) == 0
    ensures MembersDepth(ms) == Depth(ms[|ms| - 1].1)
  {
    if |ms| > 1 {
      LastDeepest(ms[1..]);
    } else {
      assert ms[1..] == [];
    }
  }

  lemma {:induction false} CollectFresh(acc: seq<(string, Json)>, ms: seq<(string, Json)>, values: seq<(string, Json)>)
    requires DistinctKeys(acc + ms) && |values| == |ms|
    requires forall i :: 0 <= i < |ms| ==> values[i] == (ms[i].0, Value(ms[i].1))
    ensures Collect(acc, ms) == acc + values
    decreases |ms|
  {
    if ms != [] {
      assert (acc + ms)[|acc|] == ms[0] && forall i :: 0 <= i < |acc| ==> acc[i] == (acc + ms)[i];
      InsertFresh(acc, ms[0].0, MemberValue(ms[0]));
      var next := acc + [values[0]];
      assert forall i :: 0 <= i < |next + ms[1..]| ==> (next + ms[1..])[i].0 == (acc + ms)[i].0;
      CollectFresh(next, ms[1..], values[1..]);
      assert acc + values == next + values[1..];
    }
  }

  lemma MembersAre(f: CallFrame, body: Json)
    ensures Members(f, body)
      == [("v", Num(Decimal(f.version))), ("type", Str("call")), ("requestId", Str(f.requestId)), ("key", Str(f.key)),
          ("method", Str(f.method_)), ("path", Str(f.path)), ("body", body)]
  {
    StringsUnrolled(f);
  }

  // A reader of the standard that takes the body text for a value finds an
  // object with exactly these seven members.
  lemma EnvelopeDenotes(f: CallFrame, body: Json, depth: nat)
    requires Padded(BodyText(f), body) && Depth(body) < depth
    ensures Parse(ToJson(f), depth)
      == Some(Obj([("v", Num(Decimal(f.version))), ("type", Str("call")), ("requestId", Str(f.requestId)),
                   ("key", Str(f.key)), ("method", Str(f.method_)), ("path", Str(f.path)), ("body", Value(body))]))
  {
    EnvelopeWritten(f, body);
    EnvelopeValue(f, body);
    MembersAre(f, Value(body));
    Denoted(ToJson(f), depth, Obj(Members(f, body)), Obj(Members(f, Value(body))));
  }

  // A missing body is a null one.
  lemma MissingBodyIsNull(f: CallFrame, depth: nat)
    requires f.body.None? && depth > 0
    ensures Parse(ToJson(f), depth).Some? && Parse(ToJson(f), depth).value.Obj?
    ensures ("body", Null) in Parse(ToJson(f), depth).value.members
  {
    Bare("null", Null);
    EnvelopeDenotes(f, Null, depth);
    var ms := Parse(ToJson(f), depth).value.members;
    assert ms[6] == ("body", Null);
  }

  predicate Flat(w: Json) { w.Num? || w.Str? }

  lemma FlatIsItself(w: Json)
    requires Flat(w)
    ensures Value(w) == w && Depth(w) == 0
  {}

  lemma FlatDepth(ms: seq<(string, Json)>)
    requires ms != [] && forall i :: 0 <= i < |ms| - 1 ==> Flat(ms[i].1)
    ensures Depth(Obj(ms)) == 1 + Depth(ms[|ms| - 1].1)
  {
    forall i | 0 <= i < |ms| - 1 ensures Depth(ms[i].1) == 0 {
      FlatIsItself(ms[i].1);
    }
    LastDeepest(ms);
  }

  // Members that hold a number or a string are their own value.
  lemma FlatValue(ms: seq<(string, Json)>, values: seq<(string, Json)>)
    requires ms != [] && |values| == |ms| && DistinctKeys(ms)
    requires forall i :: 0 <= i < |ms| - 1 ==> Flat(ms[i].1) && ms[i] == values[i]
    requires values[|ms| - 1] == (ms[|ms| - 1].0, Value(ms[|ms| - 1].1))
    ensures Collect([], ms) == values
  {
    assert [] + ms == ms && [] + values == values;
    forall i | 0 <= i < |ms| ensures values[i] == (ms[i].0, Value(ms[i].1)) {
      if i < |ms| - 1 {
        FlatIsItself(ms[i].1);
      }
    }
    CollectFresh([], ms, values);
  }

  lemma EnvelopeValue(f: CallFrame, body: Json)
    ensures Value(Obj(Members(f, body))) == Obj(Members(f, Value(body)))
    ensures Depth(Obj(Members(f, body))) == 1 + Depth(body)
  {
    MembersMarked(f, body);
    MarksDiffer(Members(f, body));
    MembersFlat(f, body);
    MembersSame(f, body, Value(body));
    FlatDepth(Members(f, body));
    FlatValue(Members(f, body), Members(f, Value(body)));
  }

  lemma Denoted(text: string, depth: nat, w: Json, v: Json)
    requires Padded(text, w) && Depth(w) <= depth && Value(w) == v
    ensures Parse(text, depth) == Some(v)
  {
    ParseIffDenotes(text, depth, v);
  }

  // The length of a name, but for the three of length four, which differ in
  // their first character.
  function Mark(name: string): int {
    if |name| == 4 then name[0] as int else -|name|
  }

  const MARKS: seq<int> := [-1, 't' as int, -9, -3, -6, 'p' as int, 'b' as int]

  lemma MarksDiffer(ms: seq<(string, Json)>)
    requires |ms| == 7 && forall i :: 0 <= i < 7 ==> Mark(ms[i].0) == MARKS[i]
    ensures DistinctKeys(ms)
  {
    assert forall i, j :: 0 <= i < j < 7 ==> MARKS[i] != MARKS[j];
  }

  lemma MembersMarked(f: CallFrame, body: Json)
    ensures |Members(f, body)| == 7 && Members(f, body)[6] == ("body", body)
    ensures forall i :: 0 <= i < 7 ==> Mark(Members(f, body)[i].0) == MARKS[i]
  {
    MembersAre(f, body);
  }

  // Every member in front of the body is a number or a string.
  lemma MembersFlat(f: CallFrame, body: Json)
    ensures |Members(f, body)| == 7
    ensures forall i :: 0 <= i < 6 ==> Flat(Members(f, body)[i].1)
  {
    MembersAre(f, body);
  }

  lemma MembersSame(f: CallFrame, body: Json, other: Json)
    ensures |Members(f, body)| == 7 && |Members(f, other)| == 7 && Members(f, other)[6] == ("body", other)
    ensures forall i :: 0 <= i < 6 ==> Members(f, body)[i] == Members(f, other)[i]
  {
    MembersAre(f, body);
    MembersAre(f, other);
  }
}

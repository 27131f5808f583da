// The envelope writer of runtime/rust/frame.rs: it pushes pieces of text into
// one buffer, and ends up with the canonical text of the frame's envelope.
module FrameWriter {
  import opened Basics
  import opened Json
  import opened MetaOrder
  import opened Frames
  import Utf8

  // ---------------------------------------------------- appending to text

  predicate Plain(s: string) {
    forall i :: 0 <= i < |s| ==> s[i] as int >= 0x20 && s[i] != '"' && s[i] != '\\'
  }

  lemma {:induction false} PlainIsLiteral(s: string)
    requires Plain(s)
    ensures EscapeAll(s, SerdeEscapes) == s
  {
    if s != "" {
      PlainIsLiteral(s[1..]);
      assert [s[0]] + s[1..] == s;
    }
  }

  lemma {:induction false} PrintMembersSnoc(ms: seq<(string, Json)>, m: (string, Json))
    ensures PrintMembers(ms + [m]) == (if ms == [] then "" else PrintMembers(ms) + ",") + PrintMember(m)
  {
    if ms == [] {
      assert ms + [m] == [m];
    } else {
      var all := ms + [m];
      assert all[0] == ms[0] && all[1..] == ms[1..] + [m];
      PrintMembersSnoc(ms[1..], m);
      if |ms| == 1 {
        assert ms[1..] == [];
      }
    }
  }

  lemma {:induction false} PrintItemsSnoc(items: seq<Json>, v: Json)
    ensures PrintItems(items + [v]) == (if items == [] then "" else PrintItems(items) + ",") + Print(v)
  {
    if items == [] {
      assert items + [v] == [v];
    } else {
      var all := items + [v];
      assert all[0] == items[0] && all[1..] == items[1..] + [v];
      PrintItemsSnoc(items[1..], v);
      if |items| == 1 {
        assert items[1..] == [];
      }
    }
  }

  /** The text written so far: the object opened, `n` fields considered. */
  function Written(f: Frame, n: nat): string
    requires n <= |FIELD_ORDER|
  {
    "{" + PrintMembers(Members(f, n))
  }

  /** The text between two members: `,"name":`. */
  function Tag(name: string): string {
    ",\"" + name + "\":"
  }

  lemma Reassociate(open: string, done: string, text: string)
    ensures open + (done + "," + text) == open + done + "," + text
    ensures open + ("" + text) == open + "" + text
  {}

  lemma TagText(done: string, name: string, text: string)
    ensures done + Tag(name) + text == done + "," + (("\"" + name + "\"") + ":" + text)
  {
    var quoted := "\"" + name + "\"";
    assert Tag(name) == "," + (quoted + ":");
    assert done + ("," + (quoted + ":")) + text == done + "," + (quoted + ":" + text);
  }

  // Pushing `,"name":` and the value's text is adding one member.
  lemma PushMember(f: Frame, n: nat)
    requires 1 <= n < |FIELD_ORDER| && Member(f, n).Some?
    ensures Written(f, n) + Tag(FIELD_ORDER[n]) + Print(Member(f, n).value) == Written(f, n + 1)
  {
    var name, v := FIELD_ORDER[n], Member(f, n).value;
    var ms := Members(f, n);
    NamesArePlain();
    PlainIsLiteral(name);
    MembersStart(f, n);
    PrintMembersSnoc(ms, (name, v));
    var text := PrintMember((name, v));
    assert text == ("\"" + name + "\"") + ":" + Print(v);
    TagText("{" + PrintMembers(ms), name, Print(v));
    Reassociate("{", PrintMembers(ms), text);
  }

  lemma SkipMember(f: Frame, n: nat)
    requires n < |FIELD_ORDER| && Member(f, n).None?
    ensures Written(f, n) == Written(f, n + 1)
  {}

  lemma NamesArePlain()
    ensures forall n :: 0 <= n < |FIELD_ORDER| ==> Plain(FIELD_ORDER[n])
  {}

  lemma {:induction false} MembersStart(f: Frame, n: nat)
    requires 1 <= n <= |FIELD_ORDER|
    ensures Members(f, n) != []
  {
    if n > 1 {
      MembersStart(f, n - 1);
    }
  }

  lemma FirstMember(f: Frame)
    ensures Written(f, 1) == "{" + "\"v\":" + Decimal(f.v)
  {
    PlainIsLiteral("v");
    assert Members(f, 0) == [];
    PrintMembersSnoc([], ("v", Num(Decimal(f.v))));
    assert [] + [("v", Num(Decimal(f.v)))] == Members(f, 1);
  }

  // ----------------------------------------------------------- the writer

  method WriteQuery(query: Pairs) returns (output: string)
    requires query != []
    ensures output == Print(Arr(QueryJson(query)))
  {
    output := "[";
    ghost var items := QueryJson(query);
    var index := 0;
    assert items[..0] == [];
    while index < |query|
      invariant 0 <= index <= |query|
      invariant output == "[" + PrintItems(items[..index])
    {
      var (name, value) := query[index];
      NextItem(items, index);
      PairText(query[index]);
      if index > 0 {
        output := output + ",";
      }
      output := output + ("[" + Quoted(name, SerdeEscapes) + "," + Quoted(value, SerdeEscapes) + "]");
      index := index + 1;
    }
    assert items[..index] == items;
    output := output + "]";
  }

  lemma NextItem(items: seq<Json>, index: nat)
    requires index < |items|
    ensures "[" + PrintItems(items[..index + 1])
         == "[" + PrintItems(items[..index]) + (if index == 0 then "" else ",") + Print(items[index])
  {
    assert items[..index + 1] == items[..index] + [items[index]];
    PrintItemsSnoc(items[..index], items[index]);
    Reassociate("[", PrintItems(items[..index]), Print(items[index]));
  }

  lemma NextMember(ms: seq<(string, Json)>, index: nat)
    requires index < |ms|
    ensures "{" + PrintMembers(ms[..index + 1])
         == "{" + PrintMembers(ms[..index]) + (if index == 0 then "" else ",") + PrintMember(ms[index])
  {
    assert ms[..index + 1] == ms[..index] + [ms[index]];
    PrintMembersSnoc(ms[..index], ms[index]);
    Reassociate("{", PrintMembers(ms[..index]), PrintMember(ms[index]));
  }

  lemma PairText(p: (string, string))
    ensures Print(PairJson(p)) == "[" + Quoted(p.0, SerdeEscapes) + "," + Quoted(p.1, SerdeEscapes) + "]"
  {
    var two, one := [Str(p.0), Str(p.1)], [Str(p.1)];
    assert two[1..] == one && one[1..] == [];
    assert PrintItems(one) == Print(Str(p.1));
    assert PrintItems(two) == Print(Str(p.0)) + ("," + PrintItems(one));
  }

  method WriteMeta(meta: Pairs) returns (output: string)
    requires meta != []
    ensures output == Print(Obj(MetaJson(meta)))
  {
    output := "{";
    ghost var ms := MetaJson(meta);
    var index := 0;
    assert ms[..0] == [];
    while index < |meta|
      invariant 0 <= index <= |meta|
      invariant output == "{" + PrintMembers(ms[..index])
    {
      var (name, value) := meta[index];
      NextMember(ms, index);
      if index > 0 {
        output := output + ",";
      }
      output := output + (Quoted(name, SerdeEscapes) + ":" + Quoted(value, SerdeEscapes));
      index := index + 1;
    }
    assert ms[..index] == ms;
    output := output + "}";
  }

  method WriteCallMembers(f: Frame, text: string) returns (output: string)
    requires text == Written(f, 3)
    ensures output == Written(f, 7)
  {
    output := text;
    if f.kind.Call? {
      PushMember(f, 3);
      PushMember(f, 4);
      PushMember(f, 5);
      output := output + Tag("key") + Quoted(OrEmpty(f.key), SerdeEscapes);
      output := output + Tag("method") + Quoted(OrEmpty(f.method_), SerdeEscapes);
      output := output + Tag("path") + Quoted(OrEmpty(f.path), SerdeEscapes);
      if f.query != [] {
        var query := WriteQuery(f.query);
        PushMember(f, 6);
        output := output + Tag("query") + query;
      } else {
        SkipMember(f, 6);
      }
    } else {
      SkipMember(f, 3);
      SkipMember(f, 4);
      SkipMember(f, 5);
      SkipMember(f, 6);
    }
  }

  method WriteErrorMembers(f: Frame, text: string) returns (output: string)
    requires text == Written(f, 8)
    ensures output == Written(f, 10)
  {
    output := text;
    if f.kind.Error? {
      PushMember(f, 8);
      output := output + Tag("code") + Quoted(OrEmpty(f.code), SerdeEscapes);
      if f.message.Some? {
        PushMember(f, 9);
        output := output + Tag("message") + Quoted(f.message.value, SerdeEscapes);
      } else {
        SkipMember(f, 9);
      }
    } else {
      SkipMember(f, 8);
      SkipMember(f, 9);
    }
  }

  method WriteHead(f: Frame) returns (output: string)
    ensures output == Written(f, 3)
  {
    output := "{" + "\"v\":" + Decimal(f.v);
    FirstMember(f);
    PushMember(f, 1);
    output := output + Tag("id") + Quoted(f.id, SerdeEscapes);
    PushMember(f, 2);
    output := output + Tag("t") + Quoted(KindName(f.kind), SerdeEscapes);
  }

  method WriteMetaMember(f: Frame, text: string) returns (output: string)
    requires text == Written(f, 10)
    ensures output == Written(f, 11)
  {
    output := text;
    if f.meta != [] {
      var sorted := SortByName(f.meta);
      SortPermutes(f.meta);
      assert |multiset(sorted)| == |multiset(f.meta)|;
      var meta := WriteMeta(sorted);
      PushMember(f, 10);
      output := output + Tag("meta") + meta;
    } else {
      SkipMember(f, 10);
    }
  }

  /** `write_json`: the pushed text is the printed envelope. */
  method WriteJson(f: Frame) returns (output: string)
    ensures output == Print(Envelope(f))
  {
    output := WriteHead(f);
    output := WriteCallMembers(f, output);
    if f.body.Some? {
      PushMember(f, 7);
      output := output + Tag("body") + Print(f.body.value);
    } else {
      SkipMember(f, 7);
    }
    output := WriteErrorMembers(f, output);
    output := WriteMetaMember(f, output);
    output := output + "}";
  }

  /** `Frame::encode`. */
  method EncodeFrame(f: Frame) returns (r: Result<seq<Byte>, FrameError>)
    ensures r == Encode(f)
    ensures r.Ok? ==> ValidFrame(f) && |r.value| <= MAX_FRAME_BYTES
  {
    var error := Validate(f);
    if error.Some? {
      return Err(error.value);
    }
    var text := WriteJson(f);
    var bytes := Utf8.Encode(text);
    if |bytes| > MAX_FRAME_BYTES {
      return Err(TooLong);
    }
    r := Ok(bytes);
  }
}

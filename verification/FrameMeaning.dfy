// Which payloads are frames: the text they spell, the object it denotes and
// what its members say, without the decoder (runtime/rust/frame.rs).
module FrameMeaning {
  import opened Basics
  import opened FrameRules
  import opened Frames
  import opened Json
  import opened JsonDenotes
  import opened JsonGrammar
  import opened JsonParser
  import opened MetaOrder
  import opened NameOrder
  import Utf8

  type Members = seq<(string, Json)>

  predicate Absent(ms: Members, name: string) {
    forall i :: 0 <= i < |ms| ==> ms[i].0 != name
  }

  predicate Says(ms: Members, name: string, text: Option<string>) {
    match text
    case None => Absent(ms, name)
    case Some(s) => (name, Str(s)) in ms
  }

  predicate SaysKind(ms: Members, kind: FrameKind) {
    match kind
    case Call => ("t", Str("call")) in ms
    case Data => ("t", Str("data")) in ms
    case End => ("t", Str("end")) in ms
    case Error => ("t", Str("error")) in ms
    case Cancel => ("t", Str("cancel")) in ms
  }

  /** A number written with digits only. */
  ghost predicate SaysVersion(ms: Members, v: Byte) {
    exists t :: ("v", Num(t)) in ms && t != "" && AllDigits(t) && DecimalValue(t) == v
  }

  predicate PairsOf(items: seq<Json>, query: Pairs) {
    |items| == |query|
    && forall i :: 0 <= i < |items| ==> items[i] == Arr([Str(query[i].0), Str(query[i].1)])
  }

  ghost predicate SaysQuery(ms: Members, query: Pairs) {
    (Absent(ms, "query") && query == []) || exists items :: ("query", Arr(items)) in ms && PairsOf(items, query)
  }

  predicate TextsOf(raw: Members, meta: Pairs) {
    |raw| == |meta| && forall i :: 0 <= i < |raw| ==> raw[i] == (meta[i].0, Str(meta[i].1))
  }

  ghost predicate Ascending(meta: Pairs) {
    forall i, j :: 0 <= i < j < |meta| ==> Before(meta[i].0, meta[j].0)
  }

  /** The entries of an object, rearranged so that their names ascend. */
  ghost predicate Entries(raw: Members, meta: Pairs) {
    Ascending(meta) && exists given :: TextsOf(raw, given) && multiset(given) == multiset(meta)
  }

  ghost predicate SaysMeta(ms: Members, meta: Pairs) {
    (Absent(ms, "meta") && meta == []) || exists raw :: ("meta", Obj(raw)) in ms && Entries(raw, meta)
  }

  predicate SaysBody(ms: Members, body: Option<Json>) {
    match body
    case None => Absent(ms, "body")
    case Some(v) => ("body", v) in ms
  }

  const NAMES := ["v", "id", "t", "key", "method", "path", "query", "body", "code", "message", "meta"]

  /** The members say what the fields of the frame are, and nothing else. */
  ghost predicate Stands(ms: Members, f: Frame) {
    && (forall i :: 0 <= i < |ms| ==> ms[i].0 in NAMES)
    && SaysVersion(ms, f.v) && Says(ms, "id", Some(f.id)) && SaysKind(ms, f.kind)
    && Says(ms, "key", f.key) && Says(ms, "method", f.method_) && Says(ms, "path", f.path)
    && SaysQuery(ms, f.query) && SaysBody(ms, f.body)
    && Says(ms, "code", f.code) && Says(ms, "message", f.message)
    && SaysMeta(ms, f.meta)
  }

  ghost predicate KeepsRules(f: Frame) { forall e :: !Breaks(f, e) }

  // ------------------------------------------------------ looking members up

  lemma Found(ms: Members, name: string, v: Json)
    requires DistinctKeys(ms)
    ensures Get(ms, name) == Some(v) <==> (name, v) in ms
    ensures Get(ms, name).None? <==> Absent(ms, name)
  {
    GetSpec(ms, name);
    if (name, v) in ms {
      var i :| 0 <= i < |ms| && ms[i] == (name, v);
      GetAt(ms, i);
    }
  }

  lemma SaysIff(ms: Members, name: string, text: Option<string>)
    requires DistinctKeys(ms)
    ensures OptionalString(ms, name) == Ok(text) <==> Says(ms, name, text)
  {
    Found(ms, name, Null);
    if text.Some? {
      Found(ms, name, Str(text.value));
    }
  }

  lemma RequiredIff(ms: Members, name: string, s: string)
    requires DistinctKeys(ms)
    ensures RequiredString(ms, name) == Ok(s) <==> Says(ms, name, Some(s))
  {
    Found(ms, name, Str(s));
  }

  lemma KindIff(ms: Members, kind: FrameKind)
    requires DistinctKeys(ms)
    ensures DecodeKind(ms) == Ok(kind) <==> SaysKind(ms, kind)
  {
    RequiredIff(ms, "t", KindName(kind));
  }

  lemma VersionIff(ms: Members, v: Byte)
    requires DistinctKeys(ms)
    ensures DecodeVersion(ms) == Ok(v) <==> SaysVersion(ms, v)
  {
    if Get<Json>(ms, "v").Some? {
      Found(ms, "v", Get<Json>(ms, "v").value);
    }
    if SaysVersion(ms, v) {
      var t :| ("v", Num(t)) in ms && t != "" && AllDigits(t) && DecimalValue(t) == v;
      Found(ms, "v", Num(t));
    }
  }

  lemma BodyIff(ms: Members, body: Option<Json>)
    requires DistinctKeys(ms)
    ensures Get(ms, "body") == body <==> SaysBody(ms, body)
  {
    Found(ms, "body", if body.Some? then body.value else Null);
  }

  lemma PairIff(v: Json, p: (string, string))
    ensures StringPair(v) == Some(p) <==> v == Arr([Str(p.0), Str(p.1)])
  {
    if StringPair(v) == Some(p) {
      assert v.items == [v.items[0], v.items[1]];
    }
  }

  lemma {:induction false} PairsIff(items: seq<Json>, query: Pairs)
    ensures QueryOf(items) == Some(query) <==> PairsOf(items, query)
  {
    if items != [] && query != [] {
      PairIff(items[0], query[0]);
      PairsIff(items[1..], query[1..]);
      assert query == [query[0]] + query[1..];
      PairsTail(items, query);
      if QueryOf(items).Some? {
        assert QueryOf(items).value[1..] == QueryOf(items[1..]).value;
      }
    }
  }

  lemma PairsTail(items: seq<Json>, query: Pairs)
    requires items != [] && query != []
    ensures PairsOf(items, query)
      <==> items[0] == Arr([Str(query[0].0), Str(query[0].1)]) && PairsOf(items[1..], query[1..])
  {
    if items[0] == Arr([Str(query[0].0), Str(query[0].1)]) && PairsOf(items[1..], query[1..]) {
      assert forall i :: 0 < i < |items| ==> items[i] == items[1..][i - 1] && query[i] == query[1..][i - 1];
    }
  }

  lemma QueryIff(ms: Members, query: Pairs)
    requires DistinctKeys(ms)
    ensures DecodeQuery(ms) == Ok(query) <==> SaysQuery(ms, query)
  {
    var found := Get<Json>(ms, "query");
    Found(ms, "query", if found.Some? then found.value else Null);
    if found.Some? && found.value.Arr? {
      PairsIff(found.value.items, query);
    }
    if items :| ("query", Arr(items)) in ms && PairsOf(items, query) {
      Found(ms, "query", Arr(items));
    }
  }

  lemma {:induction false} TextsIff(raw: Members, given: Pairs)
    ensures MetaOf(raw) == Some(given) <==> TextsOf(raw, given)
  {
    if raw != [] && given != [] {
      TextsIff(raw[1..], given[1..]);
      assert given == [given[0]] + given[1..];
      TextsTail(raw, given);
      if MetaOf(raw).Some? {
        assert MetaOf(raw).value[1..] == MetaOf(raw[1..]).value;
      }
    }
  }

  lemma TextsTail(raw: Members, given: Pairs)
    requires raw != [] && given != []
    ensures TextsOf(raw, given) <==> raw[0] == (given[0].0, Str(given[0].1)) && TextsOf(raw[1..], given[1..])
  {
    if raw[0] == (given[0].0, Str(given[0].1)) && TextsOf(raw[1..], given[1..]) {
      assert forall i :: 0 < i < |raw| ==> raw[i] == raw[1..][i - 1] && given[i] == given[1..][i - 1];
    }
  }

  lemma SortedIff(given: Pairs, meta: Pairs)
    requires DistinctNames(given)
    ensures SortByName(given) == meta <==> Ascending(meta) && multiset(given) == multiset(meta)
  {
    SortAscends(given);
    if Ascending(meta) && multiset(given) == multiset(meta) {
      forall i, j | 0 <= i < j < |meta| ensures NameLess(meta[i].0, meta[j].0) {
        NameLessIffBefore(meta[i].0, meta[j].0);
      }
      SortSorts(given);
      SortedUnique(SortByName(given), meta);
    }
  }

  // An object says its entries, sorted.
  lemma EntriesIff(raw: Members, meta: Pairs)
    requires DistinctKeys(raw)
    ensures MetaOf(raw).Some? && SortByName(MetaOf(raw).value) == meta <==> Entries(raw, meta)
  {
    if MetaOf(raw).Some? {
      var given := MetaOf(raw).value;
      TextsIff(raw, given);
      SortedIff(given, meta);
    }
    if Entries(raw, meta) {
      var given :| TextsOf(raw, given) && multiset(given) == multiset(meta);
      TextsIff(raw, given);
    }
  }

  /** No member name twice, here and in the members. */
  ghost predicate Proper(v: Json) {
    v.Obj? ==> DistinctKeys(v.members)
  }

  lemma MetaIff(ms: Members, meta: Pairs)
    requires DistinctKeys(ms) && forall i :: 0 <= i < |ms| ==> Proper(ms[i].1)
    ensures DecodeMeta(ms) == Ok(meta) <==> SaysMeta(ms, meta)
  {
    var found := Get<Json>(ms, "meta");
    Found(ms, "meta", if found.Some? then found.value else Null);
    if found.Some? && found.value.Obj? {
      EntriesIff(found.value.members, meta);
    }
    if raw :| ("meta", Obj(raw)) in ms && Entries(raw, meta) {
      Found(ms, "meta", Obj(raw));
    }
  }

  // ------------------------------------------------------- no name twice

  lemma {:induction false} InsertProper(ms: Members, name: string, v: Json)
    requires DistinctKeys(ms)
    ensures DistinctKeys(Insert(ms, name, v))
    ensures forall m :: m in Insert(ms, name, v) ==> m in ms || m == (name, v)
    ensures forall m :: m in Insert(ms, name, v) ==> m.0 == name || exists k :: k in ms && k.0 == m.0
  {
    if ms != [] && ms[0].0 != name {
      var rest := Insert(ms[1..], name, v);
      InsertProper(ms[1..], name, v);
      forall i | 0 <= i < |rest| ensures rest[i].0 != ms[0].0 {
        assert rest[i] in rest;
      }
    }
  }

  lemma {:induction false} CollectProper(acc: Members, ms: Members)
    requires DistinctKeys(acc) && forall m :: m in acc ==> Proper(m.1)
    ensures DistinctKeys(Collect(acc, ms)) && forall m :: m in Collect(acc, ms) ==> Proper(m.1)
    decreases ms
  {
    if ms != [] {
      InsertProper(acc, ms[0].0, MemberValue(ms[0]));
      MemberProper(ms[0]);
      CollectProper(Insert(acc, ms[0].0, MemberValue(ms[0])), ms[1..]);
    }
  }

  lemma {:induction false} MemberProper(m: (string, Json))
    ensures Proper(MemberValue(m))
    decreases m
  {
    ValueProper(m.1);
  }

  lemma {:induction false} ValueProper(w: Json)
    ensures Proper(Value(w))
    decreases w
  {
    if w.Obj? {
      CollectProper([], w.members);
    }
  }

  lemma DenotedProper(text: string, depth: nat, ms: Members)
    requires Denotes(text, depth, Obj(ms))
    ensures DistinctKeys(ms) && forall i :: 0 <= i < |ms| ==> Proper(ms[i].1)
  {
    var w :| JsonGrammar.Padded(text, w) && Depth(w) <= depth && Value(w) == Obj(ms);
    CollectProper([], w.members);
    forall i | 0 <= i < |ms| ensures Proper(ms[i].1) {
      assert ms[i] in ms;
    }
  }

  // --------------------------------------------------------- whole frames

  lemma StandsIff(ms: Members, f: Frame)
    requires DistinctKeys(ms) && forall i :: 0 <= i < |ms| ==> Proper(ms[i].1)
    ensures DecodeMembers(ms) == Ok(f) <==> Stands(ms, f) && KeepsRules(f)
  {
    VersionIff(ms, f.v);
    KindIff(ms, f.kind);
    QueryIff(ms, f.query);
    MetaIff(ms, f.meta);
    RequiredIff(ms, "id", f.id);
    SaysIff(ms, "key", f.key);
    SaysIff(ms, "method", f.method_);
    SaysIff(ms, "path", f.path);
    BodyIff(ms, f.body);
    SaysIff(ms, "code", f.code);
    SaysIff(ms, "message", f.message);
    CheckBreaks(f);
    assert NAMES == FIELD_ORDER;
  }

  ghost predicate Payload(bytes: seq<Byte>, depth: nat, text: string, ms: Members, f: Frame) {
    Utf8.Encode(text) == bytes && Denotes(text, depth, Obj(ms)) && Stands(ms, f)
  }

  // Decoding accepts exactly the payloads within the limit that are the UTF-8
  // of a JSON object which says the frame's fields and nothing else, for frames
  // that keep the rules, and gives that frame.
  lemma DecodeIff(bytes: seq<Byte>, depth: nat, f: Frame)
    ensures Decode(bytes, depth) == Ok(f)
      <==> |bytes| <= 8388608 && KeepsRules(f) && exists text, ms :: Payload(bytes, depth, text, ms, f)
  {
    if Decode(bytes, depth) == Ok(f) {
      var text := Utf8.Decode(bytes).value;
      var ms := Parse(text, depth).value.members;
      Utf8.EncodeDecode(bytes);
      ParseIffDenotes(text, depth, Obj(ms));
      DenotedProper(text, depth, ms);
      StandsIff(ms, f);
      assert Payload(bytes, depth, text, ms, f);
    }
    if |bytes| <= 8388608 && KeepsRules(f) && exists text, ms :: Payload(bytes, depth, text, ms, f) {
      var text, ms :| Payload(bytes, depth, text, ms, f);
      Utf8.DecodeEncode(text);
      ParseIffDenotes(text, depth, Obj(ms));
      DenotedProper(text, depth, ms);
      StandsIff(ms, f);
    }
  }
}

// Printer and parser of frames invert each other.
module FrameCodec {
  import opened Basics
  import opened Json
  import opened JsonParser
  import opened JsonRoundTrip
  import opened MetaOrder
  import opened Frames
  import Utf8

  const FIELDS: nat := |FIELD_ORDER|

  /** What the frame's own types guarantee about its body. */
  ghost predicate TypedFrame(f: Frame) {
    f.body.Some? ==> WellFormed(f.body.value)
  }

  lemma FieldOrderDistinct()
    ensures forall i, j :: 0 <= i < j < FIELDS ==> FIELD_ORDER[i] != FIELD_ORDER[j]
  {}

  lemma {:induction false} MembersLookup(f: Frame, n: nat, j: nat)
    requires n <= FIELDS && j < FIELDS
    ensures Get(Members(f, n), FIELD_ORDER[j]) == if j < n then Member(f, j) else None
  {
    if n > 0 {
      MembersLookup(f, n - 1, j);
      FieldOrderDistinct();
      if Member(f, n - 1).Some? {
        GetConcat(Members(f, n - 1), [(FIELD_ORDER[n - 1], Member(f, n - 1).value)], FIELD_ORDER[j]);
      }
    }
  }

  lemma {:induction false} MembersOrdered(f: Frame, n: nat)
    requires n <= FIELDS
    ensures DistinctKeys(Members(f, n))
    ensures forall i :: 0 <= i < |Members(f, n)| ==> Members(f, n)[i].0 in FIELD_ORDER[..n]
  {
    if n > 0 {
      MembersOrdered(f, n - 1);
      FieldOrderDistinct();
      assert FIELD_ORDER[..n] == FIELD_ORDER[..n - 1] + [FIELD_ORDER[n - 1]];
    }
  }

  // ------------------------------------------------------- query and meta

  lemma {:induction false} QueryReadsBack(q: Pairs)
    ensures QueryOf(QueryJson(q)) == Some(q)
  {
    if q != [] {
      QueryReadsBack(q[1..]);
      assert QueryJson(q)[1..] == QueryJson(q[1..]);
      assert [q[0]] + q[1..] == q;
    }
  }

  lemma {:induction false} MetaReadsBack(m: Pairs)
    ensures MetaOf(MetaJson(m)) == Some(m)
  {
    if m != [] {
      MetaReadsBack(m[1..]);
      assert MetaJson(m)[1..] == MetaJson(m[1..]);
      assert [m[0]] + m[1..] == m;
    }
  }

  lemma PairDepth(p: (string, string))
    ensures Depth(PairJson(p)) == 1
  {
    var one := [Str(p.1)];
    var two := [Str(p.0), Str(p.1)];
    assert one[1..] == [] && two[1..] == one;
    assert ItemsDepth(one) == 0;
    assert ItemsDepth(two) == 0;
  }

  lemma {:induction false} QueryDepth(q: Pairs)
    ensures ItemsDepth(QueryJson(q)) == if q == [] then 0 else 1
  {
    if q != [] {
      QueryDepth(q[1..]);
      assert QueryJson(q)[1..] == QueryJson(q[1..]);
      PairDepth(q[0]);
    }
  }

  lemma {:induction false} MetaDepth(m: Pairs)
    ensures MembersDepth(MetaJson(m)) == 0
  {
    if m != [] {
      MetaDepth(m[1..]);
      assert MetaJson(m)[1..] == MetaJson(m[1..]);
      assert MetaJson(m)[0] == (m[0].0, Str(m[0].1));
      assert Depth(Str(m[0].1)) == 0;
    }
  }

  // ------------------------------------------------------- whole envelope

  lemma QueryWellFormed(q: Pairs)
    ensures WellFormed(Arr(QueryJson(q)))
  {
    forall i | 0 <= i < |q| ensures WellFormed(QueryJson(q)[i]) {
      assert QueryJson(q)[i] == PairJson(q[i]);
      assert WellFormed(Str(q[i].0)) && WellFormed(Str(q[i].1));
    }
  }

  lemma MetaWellFormed(m: Pairs)
    requires DistinctNames(m)
    ensures WellFormed(Obj(MetaJson(m)))
  {
    forall i | 0 <= i < |m| ensures WellFormed(MetaJson(m)[i].1) {
      assert MetaJson(m)[i].1 == Str(m[i].1);
    }
  }

  lemma MemberWellFormed(f: Frame, i: nat)
    requires i < FIELDS && TypedFrame(f) && DistinctNames(f.meta)
    ensures Member(f, i).Some? ==> WellFormed(Member(f, i).value)
  {
    if i == 0 {
      DecimalIsNumber(f.v);
    } else if i == 6 {
      QueryWellFormed(f.query);
    } else if i == 10 {
      SortCanonical(f.meta, f.meta);
      MetaWellFormed(SortByName(f.meta));
    }
  }

  lemma {:induction false} MembersWellFormed(f: Frame, n: nat)
    requires n <= FIELDS && TypedFrame(f) && DistinctNames(f.meta)
    ensures forall i :: 0 <= i < |Members(f, n)| ==> WellFormed(Members(f, n)[i].1)
  {
    if n > 0 {
      MembersWellFormed(f, n - 1);
      MemberWellFormed(f, n - 1);
    }
  }

  lemma {:induction false} DepthSnoc(ms: seq<(string, Json)>, m: (string, Json))
    ensures MembersDepth(ms + [m]) == Max(MembersDepth(ms), Depth(m.1))
  {
    if ms == [] {
      assert ms + [m] == [m] && [m][1..] == [];
    } else {
      assert (ms + [m])[0] == ms[0] && (ms + [m])[1..] == ms[1..] + [m];
      DepthSnoc(ms[1..], m);
    }
  }

  ghost function BodyDepth(f: Frame): nat {
    if f.body.Some? then Depth(f.body.value) else 0
  }

  lemma {:induction false} MembersDepthBounds(f: Frame, n: nat)
    requires n <= FIELDS
    ensures MembersDepth(Members(f, n)) <= Max(2, BodyDepth(f))
    ensures n >= 8 ==> BodyDepth(f) <= MembersDepth(Members(f, n))
  {
    if n > 0 {
      MembersDepthBounds(f, n - 1);
      QueryDepth(f.query);
      MetaDepth(SortByName(f.meta));
      if Member(f, n - 1).Some? {
        DepthSnoc(Members(f, n - 1), (FIELD_ORDER[n - 1], Member(f, n - 1).value));
      }
    }
  }

  lemma CanonicalIsValid(f: Frame)
    requires ValidFrame(f)
    ensures ValidFrame(Canonical(f)) && Check(Canonical(f)).None?
  {
    SortCanonical(f.meta, f.meta);
    CheckIffValid(Canonical(f));
  }

  // What `decode` looks up is what `encode` put in.
  ghost predicate Holds(ms: seq<(string, Json)>, f: Frame) {
    && KnownMembers(ms)
    && Get(ms, "v") == Member(f, 0) && Get(ms, "id") == Member(f, 1)
    && Get(ms, "t") == Member(f, 2) && Get(ms, "key") == Member(f, 3)
    && Get(ms, "method") == Member(f, 4) && Get(ms, "path") == Member(f, 5)
    && Get(ms, "query") == Member(f, 6) && Get(ms, "body") == Member(f, 7)
    && Get(ms, "code") == Member(f, 8) && Get(ms, "message") == Member(f, 9)
    && Get(ms, "meta") == Member(f, 10)
  }

  lemma MembersHold(f: Frame)
    ensures Holds(Members(f, FIELDS), f)
  {
    MembersOrdered(f, FIELDS);
    assert FIELD_ORDER[..FIELDS] == FIELD_ORDER;
    forall j | 0 <= j < FIELDS ensures Get(Members(f, FIELDS), FIELD_ORDER[j]) == Member(f, j) {
      MembersLookup(f, FIELDS, j);
    }
    assert FIELD_ORDER[0] == "v" && FIELD_ORDER[1] == "id" && FIELD_ORDER[2] == "t";
    assert FIELD_ORDER[3] == "key" && FIELD_ORDER[4] == "method" && FIELD_ORDER[5] == "path";
    assert FIELD_ORDER[6] == "query" && FIELD_ORDER[7] == "body" && FIELD_ORDER[8] == "code";
    assert FIELD_ORDER[9] == "message" && FIELD_ORDER[10] == "meta";
  }

  function StringIf(value: Option<string>): Option<Json> {
    if value.Some? then Some(Str(value.value)) else None
  }

  lemma ValidStrings(f: Frame)
    requires ValidFrame(f)
    ensures Member(f, 3) == StringIf(f.key) && Member(f, 4) == StringIf(f.method_) && Member(f, 5) == StringIf(f.path)
    ensures Member(f, 8) == StringIf(f.code) && Member(f, 9) == StringIf(f.message)
  {
    assert ValidShape(f);
  }

  lemma OptionalHeld(ms: seq<(string, Json)>, name: string, value: Option<string>)
    requires Get(ms, name) == StringIf(value)
    ensures OptionalString(ms, name) == Ok(value)
  {}

  lemma KindHeld(ms: seq<(string, Json)>, f: Frame)
    requires Get(ms, "t") == Member(f, 2)
    ensures DecodeKind(ms) == Ok(f.kind)
  {}

  lemma StringsReadBack(ms: seq<(string, Json)>, f: Frame)
    requires Holds(ms, f) && ValidFrame(f)
    ensures RequiredString(ms, "id") == Ok(f.id) && DecodeKind(ms) == Ok(f.kind)
    ensures OptionalString(ms, "key") == Ok(f.key) && OptionalString(ms, "method") == Ok(f.method_)
    ensures OptionalString(ms, "path") == Ok(f.path)
    ensures OptionalString(ms, "code") == Ok(f.code) && OptionalString(ms, "message") == Ok(f.message)
  {
    ValidStrings(f);
    KindHeld(ms, f);
    OptionalHeld(ms, "key", f.key);
    OptionalHeld(ms, "method", f.method_);
    OptionalHeld(ms, "path", f.path);
    OptionalHeld(ms, "code", f.code);
    OptionalHeld(ms, "message", f.message);
  }

  lemma VersionReadsBack(ms: seq<(string, Json)>, f: Frame)
    requires Holds(ms, f)
    ensures DecodeVersion(ms) == Ok(f.v)
  {
    DecimalIsNumber(f.v);
  }

  lemma QueryHeld(ms: seq<(string, Json)>, f: Frame)
    requires Get(ms, "query") == Member(f, 6) && (f.kind.Call? || f.query == [])
    ensures DecodeQuery(ms) == Ok(f.query)
  {
    QueryReadsBack(f.query);
  }

  lemma MetaFound(ms: seq<(string, Json)>, sorted: Pairs)
    requires Get(ms, "meta") == Some(Obj(MetaJson(sorted)))
    ensures DecodeMeta(ms) == Ok(SortByName(sorted))
  {
    MetaReadsBack(sorted);
  }

  lemma MetaHeld(ms: seq<(string, Json)>, f: Frame)
    requires Get(ms, "meta") == Member(f, 10) && DistinctNames(f.meta)
    ensures DecodeMeta(ms) == Ok(SortByName(f.meta))
  {
    if f.meta != [] {
      MetaFound(ms, SortByName(f.meta));
      assert SortByName(SortByName(f.meta)) == SortByName(f.meta) by {
        SortCanonical(f.meta, f.meta);
      }
    }
  }

  lemma MembersAssemble(ms: seq<(string, Json)>, f: Frame)
    requires KnownMembers(ms)
    requires DecodeVersion(ms) == Ok(f.v) && DecodeKind(ms) == Ok(f.kind) && RequiredString(ms, "id") == Ok(f.id)
    requires OptionalString(ms, "key") == Ok(f.key) && OptionalString(ms, "method") == Ok(f.method_)
    requires OptionalString(ms, "path") == Ok(f.path) && DecodeQuery(ms) == Ok(f.query)
    requires OptionalString(ms, "code") == Ok(f.code) && OptionalString(ms, "message") == Ok(f.message)
    requires Get(ms, "body") == f.body && DecodeMeta(ms) == Ok(f.meta)
    ensures DecodeMembers(ms) == Checked(f)
  {}

  lemma MembersReadBack(ms: seq<(string, Json)>, f: Frame)
    requires Holds(ms, f) && ValidFrame(f)
    ensures DecodeMembers(ms) == Ok(Canonical(f))
  {
    StringsReadBack(ms, f);
    VersionReadsBack(ms, f);
    QueryHeld(ms, f);
    MetaHeld(ms, f);
    MembersAssemble(ms, Canonical(f));
    CanonicalIsValid(f);
  }

  // Decoding the bytes of a valid frame gives the frame back with `meta` in
  // name order, as long as the body nests less deeply than the parser allows;
  // a deeper body encodes without complaint and is then refused.
  lemma DecodeEncode(f: Frame, depth: nat)
    requires TypedFrame(f) && Encode(f).Ok? && depth >= 3
    ensures Decode(Encode(f).value, depth)
         == if BodyDepth(f) < depth then Ok(Canonical(f)) else Err(NotJson)
  {
    CheckIffValid(f);
    var ms := Members(f, FIELDS);
    MembersOrdered(f, FIELDS);
    MembersWellFormed(f, FIELDS);
    MembersDepthBounds(f, FIELDS);
    assert WellFormed(Envelope(f));
    Utf8.DecodeEncode(Print(Envelope(f)));
    ParsePrint(Envelope(f), depth);
    MembersHold(f);
    MembersReadBack(ms, f);
  }

  // Absent and null bodies stay distinct on the wire.
  lemma AbsentAndNullBodiesDiffer(f: Frame, g: Frame)
    requires TypedFrame(f) && TypedFrame(g) && Encode(f).Ok? && Encode(g).Ok?
    requires f.body.None? && g.body == Some(Null)
    ensures Encode(f).value != Encode(g).value
  {
    DecodeEncode(f, 3);
    DecodeEncode(g, 3);
  }

  /** The same frame up to the order of its `meta` members. */
  ghost predicate SameUpToMetaOrder(f: Frame, g: Frame) {
    f.(meta := []) == g.(meta := []) && multiset(f.meta) == multiset(g.meta)
  }

  // Encoding is canonical: two frames have the same bytes exactly when they
  // differ at most in the order of `meta`.
  lemma EqualBytesIffSame(f: Frame, g: Frame)
    requires TypedFrame(f) && TypedFrame(g) && Encode(f).Ok? && Encode(g).Ok?
    ensures Encode(f).value == Encode(g).value <==> SameUpToMetaOrder(f, g)
  {
    CheckIffValid(f);
    CheckIffValid(g);
    SortCanonical(f.meta, g.meta);
    if Encode(f).value == Encode(g).value {
      var depth := Max(BodyDepth(f), BodyDepth(g)) + 3;
      DecodeEncode(f, depth);
      DecodeEncode(g, depth);
      assert Canonical(f) == Canonical(g);
      assert f.(meta := []) == Canonical(f).(meta := []);
      assert g.(meta := []) == Canonical(g).(meta := []);
    }
    if SameUpToMetaOrder(f, g) {
      assert Canonical(f) == f.(meta := []).(meta := SortByName(f.meta));
      assert Canonical(g) == g.(meta := []).(meta := SortByName(g.meta));
      forall i | 0 <= i < FIELDS ensures Member(f, i) == Member(g, i) {
        SameMember(f, g, i);
      }
      SameMembers(f, g, FIELDS);
    }
  }

  lemma SameMember(f: Frame, g: Frame, i: nat)
    requires i < FIELDS && f.(meta := []) == g.(meta := [])
    requires SortByName(f.meta) == SortByName(g.meta) && (f.meta == [] <==> g.meta == [])
    ensures Member(f, i) == Member(g, i)
  {
    assert f == f.(meta := []).(meta := f.meta) && g == f.(meta := []).(meta := g.meta);
  }

  lemma {:induction false} SameMembers(f: Frame, g: Frame, n: nat)
    requires n <= FIELDS && forall i :: 0 <= i < n ==> Member(f, i) == Member(g, i)
    ensures Members(f, n) == Members(g, n)
  {
    if n > 0 {
      SameMembers(f, g, n - 1);
    }
  }

  // Everything `decode` accepts is a valid frame in canonical form.
  lemma DecodedIsCanonical(payload: seq<Byte>, depth: nat)
    requires Decode(payload, depth).Ok?
    ensures ValidFrame(Decode(payload, depth).value)
    ensures Canonical(Decode(payload, depth).value) == Decode(payload, depth).value
  {
    var f := Decode(payload, depth).value;
    CheckIffValid(f);
    var ms := Parse(Utf8.Decode(payload).value, depth).value.members;
    assert DecodeMeta(ms) == Ok(f.meta);
    if Get<Json>(ms, "meta").Some? {
      var raw := MetaOf(Get<Json>(ms, "meta").value.members).value;
      SortPermutes(raw);
      if DistinctNames(raw) {
        SortCanonical(raw, raw);
      } else {
        UnsortedRepeats(raw, f.meta);
      }
    }
  }

  lemma UnsortedRepeats(a: Pairs, b: Pairs)
    requires multiset(a) == multiset(b) && DistinctNames(b)
    ensures DistinctNames(a)
  {
    forall i, j | 0 <= i < j < |a| ensures a[i].0 != a[j].0 {
      assert a[i] in multiset(b) && a[j] in multiset(b);
      var x :| 0 <= x < |b| && b[x] == a[i];
      var y :| 0 <= y < |b| && b[y] == a[j];
      if a[i] == a[j] {
        TwiceInMultiset(a, i, j);
        OnceInMultiset(b, x);
      }
      assert x != y;
    }
  }

  lemma TwiceInMultiset(a: Pairs, i: nat, j: nat)
    requires i < j < |a| && a[i] == a[j]
    ensures multiset(a)[a[i]] >= 2
  {
    assert a == a[..i] + [a[i]] + a[i + 1..j] + [a[j]] + a[j + 1..];
  }

  lemma OnceInMultiset(b: Pairs, x: nat)
    requires DistinctNames(b) && x < |b|
    ensures multiset(b)[b[x]] == 1
  {
    assert b == b[..x] + [b[x]] + b[x + 1..];
    assert b[x] !in b[..x] && b[x] !in b[x + 1..];
  }
}

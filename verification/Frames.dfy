// The frame envelope (runtime/rust/frame.rs): what a valid frame is, its
// canonical bytes, and decoding.
module Frames {
  import opened Basics
  import opened Json
  import opened JsonParser
  import opened MetaOrder
  import Utf8

  const FRAME_VERSION: nat := 1
  const MAX_FRAME_BYTES: nat := 8 * 1024 * 1024
  const MAX_ID_CHARS: nat := 128

  const FIELD_ORDER: seq<string> :=
    ["v", "id", "t", "key", "method", "path", "query", "body", "code", "message", "meta"]

  datatype FrameKind = Call | Data | End | Error | Cancel

  // `body` None means the member is absent; `Some(Null)` is a JSON null.
  datatype Frame = Frame(
    v: Byte, id: string, kind: FrameKind,
    key: Option<string>, method_: Option<string>, path: Option<string>, query: Pairs,
    body: Option<Json>,
    code: Option<string>, message: Option<string>,
    meta: Pairs)

  datatype FrameError =
    | UnsupportedVersion
    | BadId
    | NeedsKey
    | NeedsMethod
    | NeedsPath
    | CarriesAddressing
    | NeedsBody
    | NeedsCode
    | CarriesCode
    | DuplicateMeta(name: string)
    | TooLong
    | NotJson
    | NotAnObject
    | UnknownMember
    | WrongType(member: string)
    | UnknownKind
    | BadQuery
    | BadMeta

  function KindName(k: FrameKind): string {
    match k
    case Call => "call"
    case Data => "data"
    case End => "end"
    case Error => "error"
    case Cancel => "cancel"
  }

  function ParseKind(raw: string): (k: Option<FrameKind>)
    ensures k.Some? ==> KindName(k.value) == raw
  {
    if raw == "call" then Some(Call)
    else if raw == "data" then Some(Data)
    else if raw == "end" then Some(End)
    else if raw == "error" then Some(Error)
    else if raw == "cancel" then Some(Cancel)
    else None
  }

  function OrEmpty(s: Option<string>): string {
    if s.Some? then s.value else ""
  }

  // ----------------------------------------------------------- validation

  predicate Addressed(f: Frame) {
    && OrEmpty(f.key) != ""
    && OrEmpty(f.method_) != ""
    && f.path.Some? && Starts(f.path.value, '/')
  }

  predicate Unaddressed(f: Frame) {
    f.key.None? && f.method_.None? && f.path.None? && f.query == []
  }

  /** The rules of a frame, as the protocol states them. */
  ghost predicate ValidFrame(f: Frame) {
    ValidShape(f) && DistinctNames(f.meta)
  }

  /** Those about everything but `meta`. */
  predicate ValidShape(f: Frame) {
    && f.v == FRAME_VERSION
    && 1 <= |f.id| <= MAX_ID_CHARS
    && (if f.kind.Call? then Addressed(f) else Unaddressed(f))
    && (f.kind.Data? ==> f.body.Some?)
    && (if f.kind.Error? then OrEmpty(f.code) != "" else f.code.None? && f.message.None?)
  }

  /** The first rule broken before `meta` is looked at. */
  function CheckShape(f: Frame): Option<FrameError> {
    if f.v != FRAME_VERSION then Some(UnsupportedVersion)
    else if f.id == "" || |f.id| > MAX_ID_CHARS then Some(BadId)
    else if f.kind.Call? && OrEmpty(f.key) == "" then Some(NeedsKey)
    else if f.kind.Call? && OrEmpty(f.method_) == "" then Some(NeedsMethod)
    else if f.kind.Call? && !(f.path.Some? && Starts(f.path.value, '/')) then Some(NeedsPath)
    else if !f.kind.Call? && !Unaddressed(f) then Some(CarriesAddressing)
    else if f.kind.Data? && f.body.None? then Some(NeedsBody)
    else if f.kind.Error? && OrEmpty(f.code) == "" then Some(NeedsCode)
    else if !f.kind.Error? && !(f.code.None? && f.message.None?) then Some(CarriesCode)
    else None
  }

  predicate NameIn(ms: Pairs, name: string) {
    exists i :: 0 <= i < |ms| && ms[i].0 == name
  }

  /** The first member whose name already occurred. */
  function FirstRepeat(seen: Pairs, ms: Pairs): Option<string>
    decreases |ms|
  {
    if ms == [] then None
    else if NameIn(seen, ms[0].0) then Some(ms[0].0)
    else FirstRepeat(seen + [ms[0]], ms[1..])
  }

  function Check(f: Frame): Option<FrameError> {
    var shape := CheckShape(f);
    if shape.Some? then shape
    else
      var repeated := FirstRepeat([], f.meta);
      if repeated.Some? then Some(DuplicateMeta(repeated.value)) else None
  }

  lemma {:induction false} NoRepeatIffDistinct(seen: Pairs, ms: Pairs)
    requires DistinctNames(seen)
    ensures FirstRepeat(seen, ms).None? <==> DistinctNames(seen + ms)
    decreases |ms|
  {
    if ms == [] {
      assert seen + ms == seen;
    } else {
      var all := seen + ms;
      assert all[|seen|] == ms[0];
      assert forall i :: 0 <= i < |seen| ==> all[i] == seen[i];
      if !NameIn(seen, ms[0].0) {
        assert seen + [ms[0]] + ms[1..] == all;
        NoRepeatIffDistinct(seen + [ms[0]], ms[1..]);
      }
    }
  }

  lemma ShapeIffValid(f: Frame)
    ensures CheckShape(f).None? <==> ValidShape(f)
  {}

  // `validate` accepts exactly the frames the protocol allows.
  lemma CheckIffValid(f: Frame)
    ensures Check(f).None? <==> ValidFrame(f)
  {
    ShapeIffValid(f);
    assert FirstRepeat([], f.meta).None? <==> DistinctNames(f.meta) by {
      NoRepeatIffDistinct([], f.meta);
      assert [] + f.meta == f.meta;
    }
  }

  /** `Frame::validate`. */
  method Validate(f: Frame) returns (error: Option<FrameError>)
    ensures error == Check(f)
    ensures error.None? <==> ValidFrame(f)
  {
    CheckIffValid(f);
    error := CheckShape(f);
    if error.Some? {
      return;
    }
    var names: set<string> := {};
    var i := 0;
    while i < |f.meta|
      invariant 0 <= i <= |f.meta|
      invariant forall n :: n in names <==> NameIn(f.meta[..i], n)
      invariant FirstRepeat([], f.meta) == FirstRepeat(f.meta[..i], f.meta[i..])
    {
      if f.meta[i].0 in names {
        return Some(DuplicateMeta(f.meta[i].0));
      }
      assert f.meta[..i] + [f.meta[i]] == f.meta[..i + 1];
      assert f.meta[i..][1..] == f.meta[i + 1..];
      NameInSnoc(f.meta[..i], f.meta[i]);
      names := names + {f.meta[i].0};
      i := i + 1;
    }
    error := None;
  }

  lemma NameInSnoc(ms: Pairs, m: (string, string))
    ensures forall n :: NameIn(ms + [m], n) <==> NameIn(ms, n) || n == m.0
  {
    forall n ensures NameIn(ms + [m], n) <==> NameIn(ms, n) || n == m.0 {
      if NameIn(ms, n) {
        var i :| 0 <= i < |ms| && ms[i].0 == n;
        assert (ms + [m])[i].0 == n;
      }
      if n == m.0 {
        assert (ms + [m])[|ms|].0 == n;
      }
    }
  }

  // ------------------------------------------------------------- envelope

  function PairJson(p: (string, string)): Json {
    Arr([Str(p.0), Str(p.1)])
  }

  function QueryJson(q: Pairs): seq<Json> {
    seq(|q|, i requires 0 <= i < |q| => PairJson(q[i]))
  }

  function MetaJson(m: Pairs): seq<(string, Json)> {
    seq(|m|, i requires 0 <= i < |m| => (m[i].0, Str(m[i].1)))
  }

  /** The member at position `i` of the fixed order, or None when omitted. */
  function Member(f: Frame, i: nat): Option<Json>
    requires i < |FIELD_ORDER|
  {
    match i
    case 0 => Some(Num(Decimal(f.v)))
    case 1 => Some(Str(f.id))
    case 2 => Some(Str(KindName(f.kind)))
    case 3 => if f.kind.Call? then Some(Str(OrEmpty(f.key))) else None
    case 4 => if f.kind.Call? then Some(Str(OrEmpty(f.method_))) else None
    case 5 => if f.kind.Call? then Some(Str(OrEmpty(f.path))) else None
    case 6 => if f.kind.Call? && f.query != [] then Some(Arr(QueryJson(f.query))) else None
    case 7 => f.body
    case 8 => if f.kind.Error? then Some(Str(OrEmpty(f.code))) else None
    case 9 => if f.kind.Error? && f.message.Some? then Some(Str(f.message.value)) else None
    case _ => if f.meta != [] then Some(Obj(MetaJson(SortByName(f.meta)))) else None
  }

  /** The members present among the first `n` of the fixed order: framing.py's
      `to_object`, with `meta` sorted. */
  function Members(f: Frame, n: nat): seq<(string, Json)>
    requires n <= |FIELD_ORDER|
  {
    if n == 0 then []
    else if Member(f, n - 1).Some? then
      Members(f, n - 1) + [(FIELD_ORDER[n - 1], Member(f, n - 1).value)]
    else Members(f, n - 1)
  }

  function Envelope(f: Frame): Json {
    Obj(Members(f, |FIELD_ORDER|))
  }

  /** The canonical bytes, before the size check. */
  function CanonicalBytes(f: Frame): seq<Byte> {
    Utf8.Encode(Print(Envelope(f)))
  }

  function Encode(f: Frame): Result<seq<Byte>, FrameError> {
    if Check(f).Some? then Err(Check(f).value)
    else if |CanonicalBytes(f)| > MAX_FRAME_BYTES then Err(TooLong)
    else Ok(CanonicalBytes(f))
  }

  /** A frame with its `meta` in canonical order. */
  function Canonical(f: Frame): Frame {
    f.(meta := SortByName(f.meta))
  }

  // ------------------------------------------------------------- decoding

  function StringPair(v: Json): Option<(string, string)> {
    if v.Arr? && |v.items| == 2 && v.items[0].Str? && v.items[1].Str? then
      Some((v.items[0].s, v.items[1].s))
    else None
  }

  function QueryOf(items: seq<Json>): Option<Pairs> {
    if items == [] then Some([])
    else
      match (StringPair(items[0]), QueryOf(items[1..]))
      case (Some(p), Some(rest)) => Some([p] + rest)
      case _ => None
  }

  function MetaOf(ms: seq<(string, Json)>): Option<Pairs> {
    if ms == [] then Some([])
    else
      match (ms[0].1, MetaOf(ms[1..]))
      case (Str(s), Some(rest)) => Some([(ms[0].0, s)] + rest)
      case _ => None
  }

  /** `Value::as_u64` on a number token. */
  function AsU64(v: Json): Option<nat> {
    if v.Num? && v.token != "" && AllDigits(v.token)
       && DecimalValue(v.token) < 0x1_0000_0000_0000_0000 then
      Some(DecimalValue(v.token))
    else None
  }

  function DecodeVersion(ms: seq<(string, Json)>): Result<Byte, FrameError> {
    match Get<Json>(ms, "v")
    case None => Err(WrongType("v"))
    case Some(raw) =>
      match AsU64(raw)
      case None => Err(WrongType("v"))
      case Some(n) => if n < 256 then Ok(n) else Err(UnsupportedVersion)
  }

  function RequiredString(ms: seq<(string, Json)>, name: string): Result<string, FrameError> {
    match Get<Json>(ms, name)
    case Some(Str(s)) => Ok(s)
    case _ => Err(WrongType(name))
  }

  function OptionalString(ms: seq<(string, Json)>, name: string): Result<Option<string>, FrameError> {
    match Get<Json>(ms, name)
    case None => Ok(None)
    case Some(Str(s)) => Ok(Some(s))
    case _ => Err(WrongType(name))
  }

  function DecodeKind(ms: seq<(string, Json)>): Result<FrameKind, FrameError> {
    match RequiredString(ms, "t")
    case Err(e) => Err(e)
    case Ok(raw) => if ParseKind(raw).Some? then Ok(ParseKind(raw).value) else Err(UnknownKind)
  }

  function DecodeQuery(ms: seq<(string, Json)>): Result<Pairs, FrameError> {
    match Get<Json>(ms, "query")
    case None => Ok([])
    case Some(Arr(items)) =>
      if QueryOf(items).Some? then Ok(QueryOf(items).value) else Err(BadQuery)
    case _ => Err(BadQuery)
  }

  function DecodeMeta(ms: seq<(string, Json)>): Result<Pairs, FrameError> {
    match Get<Json>(ms, "meta")
    case None => Ok([])
    case Some(Obj(raw)) =>
      if MetaOf(raw).Some? then Ok(SortByName(MetaOf(raw).value)) else Err(BadMeta)
    case _ => Err(BadMeta)
  }

  predicate KnownMembers(ms: seq<(string, Json)>) {
    forall i :: 0 <= i < |ms| ==> ms[i].0 in FIELD_ORDER
  }

  function Checked(f: Frame): Result<Frame, FrameError> {
    if Check(f).Some? then Err(Check(f).value) else Ok(f)
  }

  /** Decoding of the members, in the order the checks are made. */
  function DecodeMembers(ms: seq<(string, Json)>): Result<Frame, FrameError> {
    if !KnownMembers(ms) then Err(UnknownMember)
    else
      match DecodeVersion(ms)
      case Err(e) => Err(e)
      case Ok(v) =>
      match DecodeKind(ms)
      case Err(e) => Err(e)
      case Ok(kind) =>
      match DecodeQuery(ms)
      case Err(e) => Err(e)
      case Ok(query) =>
      match DecodeMeta(ms)
      case Err(e) => Err(e)
      case Ok(meta) =>
      match RequiredString(ms, "id")
      case Err(e) => Err(e)
      case Ok(id) =>
      match OptionalString(ms, "key")
      case Err(e) => Err(e)
      case Ok(key) =>
      match OptionalString(ms, "method")
      case Err(e) => Err(e)
      case Ok(method_) =>
      match OptionalString(ms, "path")
      case Err(e) => Err(e)
      case Ok(path) =>
      match OptionalString(ms, "code")
      case Err(e) => Err(e)
      case Ok(code) =>
      match OptionalString(ms, "message")
      case Err(e) => Err(e)
      case Ok(message) =>
      Checked(Frame(v, id, kind, key, method_, path, query, Get(ms, "body"), code, message, meta))
  }

  /** `Frame::decode`; `depth` is the JSON library's nesting limit. */
  function Decode(payload: seq<Byte>, depth: nat): Result<Frame, FrameError> {
    if |payload| > MAX_FRAME_BYTES then Err(TooLong)
    else
      match Utf8.Decode(payload)
      case None => Err(NotJson)
      case Some(text) =>
      match Parse(text, depth)
      case None => Err(NotJson)
      case Some(value) =>
      if value.Obj? then DecodeMembers(value.members) else Err(NotAnObject)
  }
}

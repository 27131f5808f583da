// The call envelope written without a JSON library (`Frame::to_json` and
// `quote` in runtime/rust/transports.rs).
module CallFrames {
  import opened Basics
  import opened Json

  datatype CallFrame = CallFrame(
    version: Byte, key: string, requestId: string, method_: string, path: string, body: Option<string>)

  /** `quote`. */
  method Quote(value: string) returns (out: string)
    ensures out == Quoted(value, QuoteEscapes)
  {
    out := "\"";
    var i := 0;
    assert value[0..] == value;
    while i < |value|
      invariant 0 <= i <= |value|
      invariant out + EscapeAll(value[i..], QuoteEscapes) == "\"" + EscapeAll(value, QuoteEscapes)
    {
      assert value[i..][1..] == value[i + 1..];
      var piece := Escape(value[i]);
      out := out + piece;
      i := i + 1;
    }
    assert value[i..] == "";
    out := out + "\"";
  }

  method Escape(c: char) returns (piece: string)
    ensures piece == EscapeChar(c, QuoteEscapes)
  {
    if c == '"' {
      piece := "\\\"";
    } else if c == '\\' {
      piece := "\\\\";
    } else if c == '\n' {
      piece := "\\n";
    } else if c == '\r' {
      piece := "\\r";
    } else if c == '\t' {
      piece := "\\t";
    } else if c as int < 0x20 {
      piece := "\\u00" + [HexDigit(c as int / 16), HexDigit(c as int % 16)];
    } else {
      piece := [c];
    }
  }

  // ---------------------------------------------------------- the envelope

  // The text after each value, up to the next one.
  const OPEN := "{\"v\":"
  const REQUEST_ID := ",\"type\":\"call\",\"requestId\":"
  const KEY := ",\"key\":"
  const METHOD := ",\"method\":"
  const PATH := ",\"path\":"
  const BODY := ",\"body\":"

  function BodyText(f: CallFrame): string {
    if f.body.Some? then f.body.value else "null"
  }

  // A label, then a quoted value, then the rest.
  function Labelled(lead: string, value: string, rest: string): string {
    lead + (Quoted(value, QuoteEscapes) + rest)
  }

  /** `to_json`, as nested suffixes. */
  function ToJson(f: CallFrame): string {
    OPEN + (Decimal(f.version) +
      Labelled(REQUEST_ID, f.requestId, Labelled(KEY, f.key, Labelled(METHOD, f.method_, Labelled(PATH, f.path,
        BODY + (BodyText(f) + "}"))))))
  }

  /** `to_json`: the template filled in from left to right. Any reader gets the
      fields back from what is written, and the body text behind them. */
  method WriteJson(f: CallFrame) returns (out: string)
    ensures Read(out)
      == Reading(Decimal(f.version), f.requestId, f.key, f.method_, f.path, BODY + (BodyText(f) + "}"))
    ensures out == ToJson(f)
  {
    var requestId := Quote(f.requestId);
    var key := Quote(f.key);
    var method_ := Quote(f.method_);
    var path := Quote(f.path);
    out := Template(Decimal(f.version), requestId, key, method_, path, BodyText(f));
    ToJsonReadsBack(f);
  }

  method Template(version: string, requestId: string, key: string, method_: string, path: string, body: string)
    returns (out: string)
    ensures out == OPEN + (version + (REQUEST_ID + (requestId + (KEY + (key + (METHOD + (method_ + (PATH + (path +
      (BODY + (body + "}")))))))))))
  {
    var tail := BODY + (body + "}");
    tail := PATH + (path + tail);
    tail := METHOD + (method_ + tail);
    tail := KEY + (key + tail);
    tail := REQUEST_ID + (requestId + tail);
    out := OPEN + (version + tail);
  }

  // --------------------------------------------------------- reading it back

  /** The text after a fixed lead. */
  function After(lead: string, text: string): Option<string> {
    if lead <= text then Some(text[|lead|..]) else None
  }

  /** A fixed lead and the JSON string behind it. */
  function ReadLabelled(lead: string, text: string): Parsed<string> {
    match After(lead, text)
    case None => Fail
    case Some(rest) => ParseString(rest)
  }

  function ReadVersion(text: string): Parsed<string> {
    match After(OPEN, text)
    case None => Fail
    case Some(rest) =>
      match NumberLength(rest)
      case None => Fail
      case Some(n) => Got(rest[..n], rest[n..])
  }

  datatype Reading = Unreadable | Reading(version: string, requestId: string, key: string, method_: string, path: string, tail: string)

  /** What any RFC 8259 reader learns from the envelope, member by member. */
  function Read(text: string): Reading {
    match ReadVersion(text)
    case Fail => Unreadable
    case Got(version, a) =>
      match ReadLabelled(REQUEST_ID, a)
      case Fail => Unreadable
      case Got(requestId, b) =>
        match ReadLabelled(KEY, b)
        case Fail => Unreadable
        case Got(key, c) =>
          match ReadLabelled(METHOD, c)
          case Fail => Unreadable
          case Got(method_, d) =>
            match ReadLabelled(PATH, d)
            case Fail => Unreadable
            case Got(path, e) => Reading(version, requestId, key, method_, path, e)
  }

  lemma LabelledReadsBack(lead: string, value: string, rest: string)
    ensures ReadLabelled(lead, Labelled(lead, value, rest)) == Got(value, rest)
  {
    var text := Labelled(lead, value, rest);
    assert text[..|lead|] == lead && text[|lead|..] == Quoted(value, QuoteEscapes) + rest;
    QuotedReadsBack(value, QuoteEscapes, rest);
  }

  lemma VersionReadsBack(version: Byte, rest: string)
    requires rest != "" && rest[0] == ','
    ensures ReadVersion(OPEN + (Decimal(version) + rest)) == Got(Decimal(version), rest)
  {
    var number := Decimal(version);
    var text := OPEN + (number + rest);
    assert text[..|OPEN|] == OPEN && text[|OPEN|..] == number + rest;
    DecimalIsNumber(version);
    NumberExtends(number, rest);
    assert (number + rest)[..|number|] == number && (number + rest)[|number|..] == rest;
  }

  lemma LeadFirst(lead: string, value: string, rest: string, c: char)
    requires lead != "" && lead[0] == c
    ensures Labelled(lead, value, rest) != "" && Labelled(lead, value, rest)[0] == c
  {}

  // The envelope is read back field by field, whatever characters the fields
  // hold and whatever text stands for the body.
  lemma ToJsonReadsBack(f: CallFrame)
    ensures Read(ToJson(f))
      == Reading(Decimal(f.version), f.requestId, f.key, f.method_, f.path, BODY + (BodyText(f) + "}"))
  {
    var e := BODY + (BodyText(f) + "}");
    var d := Labelled(PATH, f.path, e);
    var c := Labelled(METHOD, f.method_, d);
    var b := Labelled(KEY, f.key, c);
    var a := Labelled(REQUEST_ID, f.requestId, b);
    LeadFirst(REQUEST_ID, f.requestId, b, ',');
    VersionReadsBack(f.version, a);
    LabelledReadsBack(REQUEST_ID, f.requestId, b);
    LabelledReadsBack(KEY, f.key, c);
    LabelledReadsBack(METHOD, f.method_, d);
    LabelledReadsBack(PATH, f.path, e);
  }

  // Equal texts come from frames that agree in every field, except that an
  // absent body and the text `null` are written alike.
  lemma ToJsonDetermines(f: CallFrame, g: CallFrame)
    requires ToJson(f) == ToJson(g)
    ensures f.(body := None) == g.(body := None)
    ensures BodyText(f) == BodyText(g)
  {
    ToJsonReadsBack(f);
    ToJsonReadsBack(g);
    DecimalReadsBack(f.version);
    DecimalReadsBack(g.version);
    var x, y := BodyText(f) + "}", BodyText(g) + "}";
    assert (BODY + x)[|BODY|..] == x && (BODY + y)[|BODY|..] == y;
    assert x[..|x| - 1] == BodyText(f) && y[..|y| - 1] == BodyText(g);
  }
}

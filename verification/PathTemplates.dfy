// Path templates: splitting one into pieces (ridl/emit/base.py), the path a
// generated builder produces from it (ridl/emit/rust.py), and finding a
// parameter's segment again (runtime/rust/opto_sync.rs).
module PathTemplates {
  import opened Basics
  import opened Percent

  datatype Piece = Literal(text: string) | Param(name: string)

  /** Position of the first `c` in `s`, like `str.find`. */
  function Find(s: string, c: char): (r: Option<nat>)
    ensures r.Some? ==> r.value < |s| && s[r.value] == c && c !in s[..r.value]
    ensures r.None? ==> c !in s
  {
    if s == "" then None
    else if s[0] == c then Some(0)
    else
      match Find(s[1..], c)
      case None => None
      case Some(i) => Some(i + 1)
  }

  function Flush(buf: string): seq<Piece> {
    if buf == "" then [] else [Literal(buf)]
  }

  /** The pieces of a template, given the literal text collected so far. */
  function Pieces(path: string, buf: string): seq<Piece>
    decreases |path|
  {
    if path == "" then Flush(buf)
    else if path[0] == '{' && Find(path, '}').Some? then
      var end := Find(path, '}').value;
      Flush(buf) + [Param(path[1..end])] + Pieces(path[end + 1..], "")
    else Pieces(path[1..], buf + [path[0]])
  }

  lemma HoleStep(left: string, length: nat, out: seq<Piece>, buf: string)
    requires left != "" && left[0] == '{' && Find(left, '}') == Some(length)
    ensures out + Pieces(left, buf)
      == out + Flush(buf) + [Param(left[1..length])] + Pieces(left[length + 1..], "")
  {
    var name, rest := left[1..length], Pieces(left[length + 1..], "");
    assert out + (Flush(buf) + [Param(name)] + rest) == out + Flush(buf) + [Param(name)] + rest;
  }

  lemma CharStep(left: string, buf: string)
    requires left != "" && !(left[0] == '{' && Find(left, '}').Some?)
    ensures Pieces(left, buf) == Pieces(left[1..], buf + [left[0]])
  {}

  /** `path_segments`. */
  method PathSegments(path: string) returns (out: seq<Piece>)
    ensures out == Pieces(path, "")
  {
    out := [];
    var buf := "";
    var i := 0;
    assert path[0..] == path;
    while i < |path|
      invariant 0 <= i <= |path|
      invariant Progress(out, path[i..], buf) == Pieces(path, "")
    {
      out, buf, i := Advance(path, i, out, buf);
    }
    assert path[i..] == "";
    out := FlushBuffer(out, buf);
  }

  /** What the pieces found so far and the text left to read amount to. */
  function Progress(out: seq<Piece>, left: string, buf: string): seq<Piece> {
    out + Pieces(left, buf)
  }

  /** One turn of the loop: a placeholder or a character. */
  method Advance(path: string, i: nat, out: seq<Piece>, buf: string)
    returns (out': seq<Piece>, buf': string, next: nat)
    requires i < |path|
    ensures i < next <= |path|
    ensures Progress(out', path[next..], buf') == Progress(out, path[i..], buf)
  {
    var left := path[i..];
    if left[0] == '{' {
      var found := Find(left, '}');
      if found.Some? {
        HoleStep(left, found.value, out, buf);
        out' := FlushBuffer(out, buf);
        out' := out' + [Param(left[1..found.value])];
        buf', next := "", i + found.value + 1;
        assert path[next..] == left[found.value + 1..];
        return;
      }
    }
    CharStep(left, buf);
    out', buf', next := out, buf + [left[0]], i + 1;
    assert path[next..] == left[1..];
  }

  method FlushBuffer(out: seq<Piece>, buf: string) returns (out': seq<Piece>)
    ensures out' == out + Flush(buf)
  {
    out' := out;
    if buf != "" {
      out' := out' + [Literal(buf)];
    }
  }

  // ------------------------------------------------------------- builder

  type Values = string -> string

  /** The encoded value of each parameter. */
  function Encoded(values: Values): Values {
    (name: string) => EncodeSegment(values(name))
  }

  function Fill(piece: Piece, fill: Values): string {
    match piece
    case Literal(text) => text
    case Param(name) => fill(name)
  }

  function BuildPieces(pieces: seq<Piece>, fill: Values): string {
    if pieces == [] then "" else Fill(pieces[0], fill) + BuildPieces(pieces[1..], fill)
  }

  /** The path of a call: every placeholder replaced by its encoded value. */
  function Path(template: string, values: Values): string {
    BuildPieces(Pieces(template, ""), Encoded(values))
  }

  /** The emitted path builder. */
  method BuildPath(template: string, values: Values) returns (out: string)
    ensures out == Path(template, values)
  {
    var pieces := PathSegments(template);
    ghost var fill := Encoded(values);
    out := "";
    var i := 0;
    assert pieces[0..] == pieces;
    while i < |pieces|
      invariant 0 <= i <= |pieces|
      invariant out + BuildPieces(pieces[i..], fill) == BuildPieces(pieces, fill)
    {
      assert pieces[i..][1..] == pieces[i + 1..];
      var text := BuildPiece(pieces[i], values);
      out := out + text;
      i := i + 1;
    }
    assert pieces[i..] == [];
  }

  method BuildPiece(piece: Piece, values: Values) returns (text: string)
    ensures text == Fill(piece, Encoded(values))
  {
    match piece {
      case Literal(t) => text := t;
      case Param(name) => text := EncodeSegmentLoop(values(name));
    }
  }

  /** Substitution without the detour through pieces. */
  function Subst(t: string, fill: Values): string
    decreases |t|
  {
    if t == "" then ""
    else if t[0] == '{' && Find(t, '}').Some? then
      var end := Find(t, '}').value;
      fill(t[1..end]) + Subst(t[end + 1..], fill)
    else [t[0]] + Subst(t[1..], fill)
  }

  lemma {:induction false} BuildConcat(a: seq<Piece>, b: seq<Piece>, fill: Values)
    ensures BuildPieces(a + b, fill) == BuildPieces(a, fill) + BuildPieces(b, fill)
  {
    if a == [] {
      assert a + b == b;
    } else {
      assert (a + b)[0] == a[0] && (a + b)[1..] == a[1..] + b;
      BuildConcat(a[1..], b, fill);
    }
  }

  lemma BuildFlush(buf: string, fill: Values)
    ensures BuildPieces(Flush(buf), fill) == buf
  {}

  lemma BuildHole(buf: string, name: string, rest: seq<Piece>, fill: Values)
    ensures BuildPieces(Flush(buf) + [Param(name)] + rest, fill) == buf + (fill(name) + BuildPieces(rest, fill))
  {
    var one := [Param(name)];
    BuildFlush(buf, fill);
    BuildConcat(Flush(buf) + one, rest, fill);
    BuildConcat(Flush(buf), one, fill);
    assert one[1..] == [];
    assert BuildPieces(one, fill) == fill(name);
  }

  lemma Regroup(buf: string, c: char, rest: string)
    ensures buf + [c] + rest == buf + ([c] + rest)
  {}

  lemma {:induction false} PiecesSubstitute(t: string, buf: string, fill: Values)
    ensures BuildPieces(Pieces(t, buf), fill) == buf + Subst(t, fill)
    decreases |t|
  {
    if t == "" {
      BuildFlush(buf, fill);
    } else if t[0] == '{' && Find(t, '}').Some? {
      var end := Find(t, '}').value;
      var name, rest := t[1..end], t[end + 1..];
      PiecesSubstitute(rest, "", fill);
      BuildHole(buf, name, Pieces(rest, ""), fill);
      assert BuildPieces(Pieces(rest, ""), fill) == Subst(rest, fill);
    } else {
      PiecesSubstitute(t[1..], buf + [t[0]], fill);
      Regroup(buf, t[0], Subst(t[1..], fill));
    }
  }

  // ------------------------------------------------------ segment lookup

  /** `split('/')`. */
  function SplitSlash(s: string): (r: seq<string>)
    ensures r != []
  {
    if s == "" then [""]
    else if s[0] == '/' then [""] + SplitSlash(s[1..])
    else
      var rest := SplitSlash(s[1..]);
      [[s[0]] + rest[0]] + rest[1..]
  }

  function Lockstep(expected: seq<string>, actual: seq<string>, wanted: string): Option<string> {
    if expected == [] || actual == [] then None
    else if expected[0] == wanted then Some(actual[0])
    else Lockstep(expected[1..], actual[1..], wanted)
  }

  function Placeholder(name: string): string {
    "{" + name + "}"
  }

  function SegmentForParam(template: string, path: string, name: string): Option<string> {
    Lockstep(SplitSlash(template), SplitSlash(path), Placeholder(name))
  }

  /** `segment_for_param`: walk template and path in lockstep. */
  method FindSegment(template: string, path: string, name: string) returns (r: Option<string>)
    ensures r == SegmentForParam(template, path, name)
  {
    var wanted := Placeholder(name);
    var expected, actual := SplitSlash(template), SplitSlash(path);
    var i := 0;
    assert expected[0..] == expected && actual[0..] == actual;
    while i < |expected|
      invariant 0 <= i <= |expected| && i <= |actual|
      invariant Lockstep(expected, actual, wanted) == Lockstep(expected[i..], actual[i..], wanted)
    {
      if i >= |actual| {
        return None;
      }
      assert expected[i..][1..] == expected[i + 1..] && actual[i..][1..] == actual[i + 1..];
      if expected[i] == wanted {
        return Some(actual[i]);
      }
      i := i + 1;
    }
    r := None;
  }

  lemma {:induction false} SplitAfter(a: string, s: string)
    requires '/' !in a
    ensures var r := SplitSlash(s); SplitSlash(a + s) == [a + r[0]] + r[1..]
  {
    var r := SplitSlash(s);
    if a == "" {
      assert a + s == s && a + r[0] == r[0];
      assert r == [r[0]] + r[1..];
    } else {
      assert (a + s)[0] == a[0] && (a + s)[1..] == a[1..] + s;
      assert a[0] in a;
      SplitAfter(a[1..], s);
      assert [a[0]] + (a[1..] + r[0]) == a + r[0];
    }
  }

  lemma SplitSlashed(first: string, rest: string)
    requires '/' !in first
    ensures SplitSlash(first + ("/" + rest)) == [first] + SplitSlash(rest)
  {
    SplitAfter(first, "/" + rest);
    assert ("/" + rest)[1..] == rest;
    assert ([""] + SplitSlash(rest))[1..] == SplitSlash(rest);
    assert first + "" == first;
  }

  lemma SplitWhole(s: string)
    requires '/' !in s
    ensures SplitSlash(s) == [s]
  {
    SplitAfter(s, "");
    assert s + "" == s;
  }

  lemma {:induction false} FindIs(s: string, c: char, i: nat)
    requires i < |s| && s[i] == c && c !in s[..i]
    ensures Find(s, c) == Some(i)
  {
    if i > 0 {
      assert s[..i] == [s[0]] + s[1..i] && s[1..][..i - 1] == s[1..i];
      assert s[..i][0] == s[0];
      FindIs(s[1..], c, i - 1);
    }
  }
}

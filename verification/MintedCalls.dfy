// What a minted id says about an emitted call (runtime/rust/opto_sync.rs): the
// boundary between path and body, which the id does not mark, can be told from
// the text all the same.
module MintedCalls {
  import opened Basics
  import opened Json
  import opened JsonParser
  import opened Types
  import opened Conformance
  import opened Routes
  import opened ClientBodies
  import opened EmittedNames
  import opened QueuedCalls
  import M = MintedIds
  import P = Percent
  import T = PathTemplates

  lemma FillBraces(piece: T.Piece, v: T.Values, w: T.Values)
    ensures Count(T.Fill(piece, T.Encoded(v)), '{') == Count(T.Fill(piece, T.Encoded(w)), '{')
  {
    if piece.Param? {
      P.SegmentReadsBack(v(piece.name));
      P.SegmentReadsBack(w(piece.name));
      CountAbsent(P.EncodeSegment(v(piece.name)), '{');
      CountAbsent(P.EncodeSegment(w(piece.name)), '{');
    }
  }

  // A built path has the opening braces of its template's literals.
  lemma {:induction false} SameBraces(pieces: seq<T.Piece>, v: T.Values, w: T.Values, c: char)
    requires c == '{'
    ensures Count(T.BuildPieces(pieces, T.Encoded(v)), c) == Count(T.BuildPieces(pieces, T.Encoded(w)), c)
  {
    if pieces != [] {
      FillBraces(pieces[0], v, w);
      SameBraces(pieces[1..], v, w, c);
      CountConcat(T.Fill(pieces[0], T.Encoded(v)), T.BuildPieces(pieces[1..], T.Encoded(v)), c);
      CountConcat(T.Fill(pieces[0], T.Encoded(w)), T.BuildPieces(pieces[1..], T.Encoded(w)), c);
    }
  }

  lemma PathBraces(r: Route, v: T.Values, w: T.Values)
    ensures Count(CallPath(r, v), '{') == Count(CallPath(r, w), '{')
  {
    SameBraces(T.Pieces(r.path, ""), v, w, '{');
  }

  predicate Opens(s: string) { s != "" && s[0] == '{' }

  // A brace that opens the text behind `p` would be one too many in `q`.
  lemma NotShorter(p: string, x: string, q: string, y: string)
    requires Opens(x) && p + x == q + y && Count(p, '{') == Count(q, '{')
    ensures |p| >= |q|
  {
    if |p| < |q| {
      var more := q[|p|..];
      assert (q + y)[..|q|] == q && (p + x)[..|p|] == p;
      assert q == p + more;
      assert more[0] == (q + y)[|p|] && (p + x)[|p|] == x[0];
      CountConcat(p, more, '{');
    }
  }

  lemma SplitsAlike(p: string, x: string, q: string, y: string)
    requires Opens(x) && Opens(y) && p + x == q + y && Count(p, '{') == Count(q, '{')
    ensures p == q && x == y
  {
    NotShorter(p, x, q, y);
    NotShorter(q, y, p, x);
    assert (p + x)[..|p|] == (q + y)[..|q|] && (p + x)[|p|..] == x && (q + y)[|q|..] == y;
  }

  // A body that a client sends is an object, and its text determines it.
  lemma SentBody(client: Client, t: TypeTable, c: Checks, r: Route, depth: nat, body: Option<Json>)
    requires Validated(t, r) && Sendable(client, t, c, r, depth, body) && body.Some?
    ensures Opens(Print(body.value)) && Parse(Print(body.value), depth) == Some(body.value)
  {
    ValidatedEmittable(t, r);
    EmittableForBodies(client, t, r);
    BodyIsObject(BodyTable(client, t), AsClient(c), r, depth, body);
  }

  // Emitted calls of one queued route have the same material only if path and
  // body are the same: no text can move between the two.
  lemma MaterialIsPathAndBody(client: Client, t: TypeTable, c: Checks, r: Route, depth: nat,
      v: T.Values, body: Option<Json>, w: T.Values, body': Option<Json>)
    requires Validated(t, r)
    requires Sendable(client, t, c, r, depth, body) && Sendable(client, t, c, r, depth, body')
    ensures M.Material(r.key, CallPath(r, v), BodyText(body)) == M.Material(r.key, CallPath(r, w), BodyText(body'))
      <==> CallPath(r, v) == CallPath(r, w) && body == body'
  {
    var p, q := CallPath(r, v), CallPath(r, w);
    M.BoundaryIsNotMarked(r.key, p, BodyText(body), q, BodyText(body'));
    if body.None? {
      assert p + "" == p && q + "" == q;
    } else {
      SentBody(client, t, c, r, depth, body);
      SentBody(client, t, c, r, depth, body');
      PathBraces(r, v, w);
      if p + Print(body.value) == q + Print(body'.value) {
        SplitsAlike(p, Print(body.value), q, Print(body'.value));
      }
    }
  }
}

// What the pieces of a path template are, without the scanner
// (ridl/emit/base.py).
module TemplatePieces {
  import opened PathTemplates

  /** Literal text and placeholders spell the template from left to right. A
      placeholder ends at the first closing brace, literal text goes on up to
      the next placeholder, and an opening brace in it is never closed. */
  ghost predicate Spell(pieces: seq<Piece>, text: string)
    decreases |pieces|
  {
    if pieces == [] then text == ""
    else
      match pieces[0]
      case Literal(t) =>
        && t != "" && t <= text
        && (forall k :: 0 <= k < |t| && t[k] == '{' ==> '}' !in text[k..])
        && (|pieces| > 1 ==> pieces[1].Param?)
        && Spell(pieces[1..], text[|t|..])
      case Param(name) =>
        && '}' !in name && Placeholder(name) <= text
        && Spell(pieces[1..], text[|Placeholder(name)|..])
  }

  ghost predicate NeverClosed(t: string, text: string) {
    t <= text && forall k :: 0 <= k < |t| && t[k] == '{' ==> '}' !in text[k..]
  }

  lemma {:induction false} LiteralRun(t: string, rest: string, buf: string)
    requires NeverClosed(t, t + rest)
    ensures Pieces(t + rest, buf) == Pieces(rest, buf + t)
    decreases |t|
  {
    var text := t + rest;
    if t == "" {
      assert text == rest && buf + t == buf;
    } else {
      assert text[0..] == text && text[0] == t[0] && text[1..] == t[1..] + rest;
      CharStep(text, buf);
      forall k | 0 <= k < |t[1..]| && t[1..][k] == '{' ensures '}' !in text[1..][k..] {
        assert t[k + 1] == '{' && text[k + 1..] == text[1..][k..];
      }
      LiteralRun(t[1..], rest, buf + [t[0]]);
      assert buf + [t[0]] + t[1..] == buf + t;
    }
  }

  lemma HoleAt(name: string, rest: string, buf: string)
    requires '}' !in name
    ensures Pieces(Placeholder(name) + rest, buf) == Flush(buf) + [Param(name)] + Pieces(rest, "")
  {
    var text := Placeholder(name) + rest;
    FindIs(text, '}', |name| + 1);
    assert text[1..|name| + 1] == name && text[|name| + 2..] == rest;
  }

  lemma ParamFirst(name: string, pieces: seq<Piece>, text: string)
    requires Spell([Param(name)] + pieces, text)
    ensures '}' !in name && Placeholder(name) <= text && Spell(pieces, text[|Placeholder(name)|..])
    ensures text == Placeholder(name) + text[|Placeholder(name)|..]
  {
    assert ([Param(name)] + pieces)[1..] == pieces;
  }

  // Behind literal text `buf`: nothing or a placeholder.
  lemma {:induction false} SpelledBehind(pieces: seq<Piece>, text: string, buf: string)
    requires Spell(pieces, text) && (pieces != [] && buf != "" ==> pieces[0].Param?)
    ensures Pieces(text, buf) == Flush(buf) + pieces
    decreases |pieces|
  {
    if pieces == [] {
      assert Flush(buf) + pieces == Flush(buf);
    } else {
      var first, more := pieces[0], pieces[1..];
      assert pieces == [first] + more;
      if first.Param? {
        var rest := text[|Placeholder(first.name)|..];
        ParamFirst(first.name, more, text);
        HoleAt(first.name, rest, buf);
        SpelledBehind(more, rest, "");
      } else {
        var rest := text[|first.text|..];
        assert text == first.text + rest && "" + first.text == first.text;
        LiteralRun(first.text, rest, "");
        SpelledBehind(more, rest, first.text);
      }
    }
  }

  lemma SpellLiteral(t: string, pieces: seq<Piece>, rest: string)
    requires t != "" && NeverClosed(t, t + rest) && Spell(pieces, rest) && (pieces != [] ==> pieces[0].Param?)
    ensures Spell([Literal(t)] + pieces, t + rest)
  {
    var all := [Literal(t)] + pieces;
    assert all[1..] == pieces && (t + rest)[|t|..] == rest;
  }

  lemma SpellHole(name: string, pieces: seq<Piece>, rest: string)
    requires '}' !in name && Spell(pieces, rest)
    ensures Spell([Param(name)] + pieces, Placeholder(name) + rest)
  {
    var all := [Param(name)] + pieces;
    assert all[1..] == pieces && (Placeholder(name) + rest)[|Placeholder(name)|..] == rest;
  }

  lemma SpellFlushed(buf: string, pieces: seq<Piece>, rest: string)
    requires NeverClosed(buf, buf + rest) && Spell(pieces, rest) && (pieces != [] ==> pieces[0].Param?)
    ensures Spell(Flush(buf) + pieces, buf + rest)
  {
    if buf == "" {
      assert Flush(buf) + pieces == pieces && buf + rest == rest;
    } else {
      SpellLiteral(buf, pieces, rest);
    }
  }

  lemma OneMore(buf: string, path: string)
    requires path != "" && NeverClosed(buf, buf + path) && !(path[0] == '{' && Find(path, '}').Some?)
    ensures NeverClosed(buf + [path[0]], buf + [path[0]] + path[1..]) && buf + [path[0]] + path[1..] == buf + path
  {
    assert buf + [path[0]] + path[1..] == buf + path && (buf + path)[|buf|..] == path;
  }

  // The scanner's pieces spell the literal text collected and the path left.
  lemma {:induction false} PiecesSpell(path: string, buf: string)
    requires NeverClosed(buf, buf + path)
    ensures Spell(Pieces(path, buf), buf + path)
    decreases |path|
  {
    if path == "" {
      SpellFlushed(buf, [], "");
      assert Flush(buf) + [] == Flush(buf);
    } else if path[0] == '{' && Find(path, '}').Some? {
      var end := Find(path, '}').value;
      var name, rest := path[1..end], path[end + 1..];
      assert path[..end][1..] == name && path == Placeholder(name) + rest && "" + rest == rest;
      PiecesSpell(rest, "");
      SpellHole(name, Pieces(rest, ""), rest);
      SpellFlushed(buf, [Param(name)] + Pieces(rest, ""), path);
      assert Flush(buf) + ([Param(name)] + Pieces(rest, "")) == Flush(buf) + [Param(name)] + Pieces(rest, "");
    } else {
      OneMore(buf, path);
      CharStep(path, buf);
      PiecesSpell(path[1..], buf + [path[0]]);
    }
  }

  // The scanner finds the one way to spell a template.
  lemma PiecesIffSpelled(template: string, pieces: seq<Piece>)
    ensures Pieces(template, "") == pieces <==> Spell(pieces, template)
  {
    assert "" + template == template;
    PiecesSpell(template, "");
    if Spell(pieces, template) {
      SpelledBehind(pieces, template, "");
      assert Flush("") + pieces == pieces;
    }
  }
}

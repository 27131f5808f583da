// The argument names emitters derive from path parameters (ridl/naming.py,
// ridl/emit/rust.py), and what legal names imply for a template.
module EmittedNames {
  import opened Basics
  import opened Json
  import opened Naming
  import opened Types
  import opened Routes
  import T = PathTemplates
  import R = PathRoundTrip

  // -------------------------------------------------------- identifiers

  /** What a compiler can take for an identifier, as far as ASCII goes. */
  predicate Identifier(s: string) {
    s != "" && !IsDigit(s[0]) && forall i :: 0 <= i < |s| ==> IdentifierChar(s[i])
  }

  predicate IdentifierChar(c: char) {
    LowerOrDigit(c) || Upper(c) || c == '_' || c as int >= 0x80
  }

  // Only separators are dropped, and only letters are changed.
  lemma {:induction false} SnakeKeeps(s: string, prev: Option<char>, started: bool, c: char)
    requires c in s && !Separator(c) && !Upper(c)
    ensures c in SnakeFrom(s, prev, started)
  {
    var newWord := prev.None? || (LowerOrDigit(prev.value) && Upper(s[0]));
    if Separator(s[0]) {
      SnakeKeeps(s[1..], None, started, c);
    } else if s[0] == c {
      assert ToLower(c) == c;
    } else {
      assert c in s[1..];
      SnakeKeeps(s[1..], Some(s[0]), true, c);
    }
  }

  // ----------------------------------------------------- legal templates

  /** In a builder the text of a placeholder stands where an expression must;
      the star of a catch-all reads as a dereference there. */
  function Operand(text: string): string {
    if text != "" && text[0] == '*' then text[1..] else text
  }

  /** What compiling the emitted path builder demands of its names. */
  ghost predicate LegalNames(r: Route) {
    && (forall i :: 0 <= i < |r.pathParams| ==> Identifier(Snake(r.pathParams[i].wire)))
    && LegalTemplate(r.path)
  }

  ghost predicate LegalTemplate(path: string) {
    forall n :: n in ParamNames(T.Pieces(path, "")) ==> Identifier(Snake(Operand(n)))
  }

  lemma IdentifierHasNo(s: string, c: char)
    requires Identifier(s) && !IdentifierChar(c)
    ensures c !in s
  {}

  lemma LegalTextIsPlain(text: string, c: char)
    requires Identifier(Snake(Operand(text))) && (c == '/' || c == '{')
    ensures c !in text
  {
    IdentifierHasNo(Snake(Operand(text)), c);
    if c in Operand(text) {
      SnakeKeeps(Operand(text), None, false, c);
    }
    assert text == Operand(text) || text == "*" + Operand(text);
  }

  lemma {:induction false} PlainNamesAreSlashFree(t: string)
    requires forall n :: n in BuilderNames(t) ==> '/' !in n
    ensures R.SlashFree(t)
    decreases |t|
  {
    if t == "" {
    } else if t[0] == '{' && T.Find(t, '}').Some? {
      var end := T.Find(t, '}').value;
      var names := BuilderNames(t);
      assert names[0] == t[1..end] && names[1..] == BuilderNames(t[end + 1..]);
      PlainNamesAreSlashFree(t[end + 1..]);
    } else {
      PlainNamesAreSlashFree(t[1..]);
    }
  }

  // A template an emitter can compile has no slash and no further brace inside
  // its placeholders, so validator and builders read it alike, and a parameter
  // is found again exactly if its placeholder fills a whole segment.
  lemma LegalTemplateIsPlain(path: string)
    requires LegalTemplate(path)
    ensures R.SlashFree(path)
    ensures ParamNames(T.Pieces(path, "")) == Captures(path)
    ensures forall name :: R.Aligned(path, name) <==> T.Placeholder(name) in T.SplitSlash(path)
  {
    var names := ParamNames(T.Pieces(path, ""));
    PiecesNames(path, "");
    forall n | n in names ensures '/' !in n && '{' !in n {
      LegalTextIsPlain(n, '/');
      LegalTextIsPlain(n, '{');
    }
    PlainNamesAreSlashFree(path);
    ReadersAgreeIffUnnested(path);
    forall name ensures R.Aligned(path, name) <==> T.Placeholder(name) in T.SplitSlash(path) {
      R.WholeSegmentIsAligned(path, name);
    }
  }

  // --------------------------------- accepted, and yet not to be compiled

  lemma {:induction false} CountConcat(a: string, b: string, c: char)
    ensures Count(a + b, c) == Count(a, c) + Count(b, c)
  {
    if a == "" {
      assert a + b == b;
    } else {
      assert (a + b)[1..] == a[1..] + b;
      CountConcat(a[1..], b, c);
    }
  }

  lemma {:induction false} CountAbsent(s: string, c: char)
    requires c !in s
    ensures Count(s, c) == 0
  {
    if s != "" {
      CountAbsent(s[1..], c);
    }
  }

  lemma {:induction false} NoCaptures(s: string)
    requires '{' !in s
    ensures Captures(s) == []
  {
    if s != "" {
      NoCaptures(s[1..]);
    }
  }

  predicate Unbraced(s: string) { '{' !in s && '}' !in s }

  lemma HoleAtFront(name: string, tail: string)
    requires Unbraced(name) && '{' !in tail
    ensures Captures(T.Placeholder(name) + tail) == [name]
  {
    var t := T.Placeholder(name) + tail;
    var end := |name| + 1;
    assert t[..end] == "{" + name && t[end] == '}' && t[1..end] == name && t[end + 1..] == tail;
    T.FindIs(t, '}', end);
    NoCaptures(tail);
  }

  // Whatever stands before the hole, as long as it closes nothing, is skipped.
  lemma {:induction false} OneCapture(lead: string, name: string, tail: string)
    requires '}' !in lead && Unbraced(name) && '{' !in tail
    ensures Captures(lead + (T.Placeholder(name) + tail)) == [name]
  {
    var hole := T.Placeholder(name) + tail;
    var t := lead + hole;
    if lead == "" {
      assert t == hole;
      HoleAtFront(name, tail);
    } else {
      assert t[0] == lead[0] && t[1..] == lead[1..] + hole;
      OneCapture(lead[1..], name, tail);
      if t[0] == '{' && T.Find(t, '}').Some? {
        SkippedBrace(lead, name, tail, t);
      }
    }
  }

  // A brace in front of the hole encloses the hole's own brace.
  lemma SkippedBrace(lead: string, name: string, tail: string, t: string)
    requires lead != "" && '}' !in lead && Unbraced(name)
    requires t == lead + (T.Placeholder(name) + tail)
    ensures T.Find(t, '}') == Some(|lead| + |name| + 1)
    ensures '{' in t[1..|lead| + |name| + 1]
  {
    var close := |lead| + |name| + 1;
    assert t[..close] == lead + ("{" + name) && t[close] == '}';
    T.FindIs(t, '}', close);
    assert t[1..close][|lead| - 1] == '{';
  }

  /** A route with one required string parameter, its placeholder standing
      between two texts. */
  predicate OneParam(r: Route, lead: string, name: string, tail: string) {
    && r.path == lead + (T.Placeholder(name) + tail)
    && r.pathParams == [PathParam(name, Base(Builtin.String), true)]
    && name != "" && name[0] != '*' && Unbraced(name)
    && '}' !in lead && '{' !in tail && Count(lead, '{') == Count(tail, '}')
  }

  lemma OneParamBalanced(r: Route, lead: string, name: string, tail: string)
    requires OneParam(r, lead, name, tail)
    ensures Count(r.path, '{') == Count(r.path, '}')
  {
    var hole := T.Placeholder(name);
    CountConcat(lead, hole + tail, '{');
    CountConcat(lead, hole + tail, '}');
    CountConcat(hole, tail, '{');
    CountConcat(hole, tail, '}');
    HoleBraces(name);
    CountAbsent(lead, '}');
    CountAbsent(tail, '{');
  }

  lemma OneNameAccepted(t: TypeTable, r: Route, name: string)
    requires Captures(r.path) == [name] && name != "" && name[0] != '*'
    requires Count(r.path, '{') == Count(r.path, '}')
    requires r.pathParams == [PathParam(name, Base(Builtin.String), true)]
    ensures PathAccepted(t, r)
  {
    assert PathParamsIn(r.path) == [name] && WildcardParamsIn(r.path) == {};
    assert r.pathParams[0].wire == name;
    forall e: PathError ensures !PathFault(t, r, e) {
      assert !TemplateFault(r, e);
      assert !OwnFault(t, r.pathParams[0], e);
    }
  }

  lemma OneParamAccepted(t: TypeTable, r: Route, lead: string, name: string, tail: string)
    requires OneParam(r, lead, name, tail)
    ensures PathAccepted(t, r) && Captures(r.path) == [name]
  {
    OneCapture(lead, name, tail);
    OneParamBalanced(r, lead, name, tail);
    OneNameAccepted(t, r, name);
  }

  // A legal name between plain texts makes a legal template.
  lemma OneParamLegal(r: Route, lead: string, name: string)
    requires OneParam(r, lead, name, "") && '{' !in lead && Identifier(Snake(name))
    ensures LegalNames(r)
  {
    PiecesNames(r.path, "");
    SkipLead(lead, T.Placeholder(name) + "");
    var t := T.Placeholder(name) + "";
    var end := |name| + 1;
    assert t[..end] == "{" + name && t[end] == '}' && t[1..end] == name && t[end + 1..] == "";
    T.FindIs(t, '}', end);
    assert BuilderNames(r.path) == [name] && Operand(name) == name;
  }

  lemma {:induction false} SkipLead(lead: string, rest: string)
    requires '{' !in lead
    ensures BuilderNames(lead + rest) == BuilderNames(rest)
  {
    if lead == "" {
      assert lead + rest == rest;
    } else {
      assert (lead + rest)[0] == lead[0] && (lead + rest)[1..] == lead[1..] + rest;
      SkipLead(lead[1..], rest);
    }
  }

  lemma HoleBraces(name: string)
    requires Unbraced(name)
    ensures Count(T.Placeholder(name), '{') == 1 && Count(T.Placeholder(name), '}') == 1
  {
    var rest := name + "}";
    assert T.Placeholder(name) == "{" + rest && ("{" + rest)[1..] == rest;
    CountConcat(name, "}", '{');
    CountConcat(name, "}", '}');
    CountAbsent(name, '{');
    CountAbsent(name, '}');
    assert "}"[1..] == "";
  }

  lemma NotAnIdentifier(name: string, c: char)
    requires c in name && !IdentifierChar(c) && !Separator(c)
    ensures !Identifier(Snake(name))
  {
    SnakeKeeps(name, None, false, c);
    if Identifier(Snake(name)) {
      IdentifierHasNo(Snake(name), c);
    }
  }

  // The validator takes a parameter p/q whose placeholder is a whole segment,
  // although the emitted argument would be called p/q.
  lemma SlashedNameAccepted(t: TypeTable, r: Route, p: string, q: string)
    requires p != "" && p[0] != '*' && Unbraced(p) && Unbraced(q)
    requires OneParam(r, "/", p + "/" + q, "")
    ensures PathAccepted(t, r) && !LegalNames(r)
  {
    var name := p + "/" + q;
    OneParamAccepted(t, r, "/", name, "");
    assert name[|p|] == '/';
    NotAnIdentifier(name, '/');
    assert r.pathParams[0].wire == name;
  }

  lemma OuterHole(a: string, b: string)
    requires Unbraced(a) && Unbraced(b)
    ensures BuilderNames("/{" + a + (T.Placeholder(b) + "}")) == [a + "{" + b]
  {
    var path := "/{" + a + (T.Placeholder(b) + "}");
    var t := path[1..];
    var name := a + "{" + b;
    var end := |name| + 1;
    assert path[0] == '/' && t[0] == '{';
    assert t[..end] == "{" + name && t[end] == '}' && t[1..end] == name && t[end + 1..] == "}";
    T.FindIs(t, '}', end);
    assert "}"[1..] == "" && BuilderNames("}") == [];
  }

  // It also takes templates like /{a{b}} with the parameter b, where builders
  // read the name a{b: the two readers differ, and no emitted builder compiles.
  lemma NestedNameAccepted(t: TypeTable, r: Route, a: string, b: string)
    requires Unbraced(a) && OneParam(r, "/{" + a, b, "}")
    ensures PathAccepted(t, r) && !LegalNames(r)
    ensures Captures(r.path) == [b] && ParamNames(T.Pieces(r.path, "")) == [a + "{" + b]
  {
    OneParamAccepted(t, r, "/{" + a, b, "}");
    PiecesNames(r.path, "");
    OuterHole(a, b);
    var name := a + "{" + b;
    assert name[|a|] == '{' && name in ParamNames(T.Pieces(r.path, ""));
    if LegalTemplate(r.path) {
      LegalTextIsPlain(name, '{');
    }
  }

  // For example /{p/q} and /{a{b}}.
  lemma SlashedExample(t: TypeTable, r: Route)
    requires r.path == "/{p/q}" && r.pathParams == [PathParam("p/q", Base(Builtin.String), true)]
    ensures PathAccepted(t, r) && !LegalNames(r)
  {
    assert "p/q" == "p" + "/" + "q" && "/{p/q}" == "/" + (T.Placeholder("p/q") + "");
    SlashedNameAccepted(t, r, "p", "q");
  }

  lemma NestedExample(t: TypeTable, r: Route)
    requires r.path == "/{a{b}}" && r.pathParams == [PathParam("b", Base(Builtin.String), true)]
    ensures PathAccepted(t, r) && !LegalNames(r)
    ensures Captures(r.path) == ["b"] && ParamNames(T.Pieces(r.path, "")) == ["a{b"]
  {
    assert "/{a{b}}" == "/{" + "a" + (T.Placeholder("b") + "}");
    OneBrace("a");
    NestedNameAccepted(t, r, "a", "b");
    assert "a{b" == "a" + "{" + "b";
  }

  lemma OneBrace(a: string)
    requires Unbraced(a)
    ensures Count("/{" + a, '{') == 1 && Count("}", '}') == 1
  {
    CountConcat("/{", a, '{');
    CountAbsent(a, '{');
    assert "/{"[1..] == "{" && "{"[1..] == "" && "}"[1..] == "";
  }
}

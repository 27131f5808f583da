// Routes and the rules their path templates must satisfy (ridl/model.py,
// `_validate_path_params` in ridl/validate.py).
module Routes {
  import opened Basics
  import opened Types
  import T = PathTemplates

  datatype PathParam = PathParam(wire: string, ptype: TypeExpr, required: bool)

  datatype OptoSync = OptoSync(table: string, recordIdFrom: string, operation: string)

  // The fields of a route that delivery and path building depend on.
  datatype Route = Route(
    key: string,
    path: string,
    methods: seq<string>,
    pathParams: seq<PathParam>,
    request: Option<TypeExpr>,
    delivery: string,
    stream: string,
    client: bool,
    optoSync: Option<OptoSync>) {

    // `path_params` is a Python dict: one entry a name.
    ghost predicate Valid() {
      forall i, j :: 0 <= i < j < |pathParams| ==> pathParams[i].wire != pathParams[j].wire
    }

    ghost predicate Declares(name: string) {
      exists i :: 0 <= i < |pathParams| && pathParams[i].wire == name
    }
  }

  // -------------------------------------------------------- placeholders

  /** The texts `PATH_PARAM_RE.findall` captures: whatever stands between
      braces with no brace in between. */
  function Captures(path: string): seq<string>
    decreases |path|
  {
    if path == "" then []
    else if path[0] == '{' && T.Find(path, '}').Some? && '{' !in path[1..T.Find(path, '}').value] then
      var end := T.Find(path, '}').value;
      [path[1..end]] + Captures(path[end + 1..])
    else Captures(path[1..])
  }

  /** `lstrip('*')`. */
  function StripStars(s: string): string {
    if s != "" && s[0] == '*' then StripStars(s[1..]) else s
  }

  function StripAll(names: seq<string>): (r: seq<string>)
    ensures |r| == |names|
    ensures forall i :: 0 <= i < |r| ==> r[i] == StripStars(names[i])
  {
    if names == [] then [] else [StripStars(names[0])] + StripAll(names[1..])
  }

  /** `path_params_in`. */
  function PathParamsIn(path: string): seq<string> {
    StripAll(Captures(path))
  }

  /** `wildcard_params_in`. */
  function WildcardParamsIn(path: string): set<string> {
    set n | n in Captures(path) && n != "" && n[0] == '*' :: StripStars(n)
  }

  function Count(s: string, c: char): nat {
    if s == "" then 0 else (if s[0] == c then 1 else 0) + Count(s[1..], c)
  }

  /** `rstrip('/')`. */
  function StripSlashes(s: string): string
    decreases |s|
  {
    if s != "" && s[|s| - 1] == '/' then StripSlashes(s[..|s| - 1]) else s
  }

  predicate EndsWith(s: string, suffix: string) {
    |suffix| <= |s| && s[|s| - |suffix|..] == suffix
  }

  /** `RouteMap.is_scalar_like`. */
  predicate IsScalarLike(t: TypeTable, e: TypeExpr) {
    var u := Underlying(t, e, {});
    (u.Base? && u.builtin != Builtin.Json)
    || (u.Named? && u.name in t.defs && (t.defs[u.name].ScalarDef? || t.defs[u.name].EnumDef?))
  }

  // ---------------------------------------------------------- path rules

  datatype PathError =
    | Malformed
    | Repeated
    | NoEntry(name: string)
    | NotInPath(name: string)
    | WildcardNotLast(name: string)
    | ManyWildcards
    | BadType(wire: string)
    | NotRequired(wire: string)
    | NotScalar(wire: string)

  predicate WildcardLast(path: string, name: string) {
    EndsWith(StripSlashes(path), "{*" + name + "}")
  }

  /** When each complaint is due. */
  ghost predicate PathFault(t: TypeTable, route: Route, e: PathError) {
    TemplateFault(route, e) || ParamFault(t, route, e, |route.pathParams|)
  }

  // The complaints that compare the template with the declared names.
  ghost predicate TemplateFault(route: Route, e: PathError) {
    var names := PathParamsIn(route.path);
    match e
    case Malformed => Count(route.path, '{') != Count(route.path, '}') || "" in names
    case Repeated => !Distinct(names)
    case NoEntry(name) => name in names && name != "" && !route.Declares(name)
    case NotInPath(name) => route.Declares(name) && name !in names
    case WildcardNotLast(name) => name in WildcardParamsIn(route.path) && !WildcardLast(route.path, name)
    case ManyWildcards => |WildcardParamsIn(route.path)| > 1
    case _ => false
  }

  // A complaint about one parameter's own declaration.
  predicate OwnFault(t: TypeTable, p: PathParam, e: PathError) {
    match e
    case BadType(wire) => p.wire == wire && !RefsResolve(t, p.ptype)
    case NotRequired(wire) => p.wire == wire && !p.required
    case NotScalar(wire) => p.wire == wire && !IsScalarLike(t, p.ptype)
    case _ => false
  }

  ghost predicate ParamFault(t: TypeTable, route: Route, e: PathError, upto: nat)
    requires upto <= |route.pathParams|
  {
    exists i :: 0 <= i < upto && OwnFault(t, route.pathParams[i], e)
  }

  method HasRepeat(names: seq<string>) returns (repeated: bool)
    ensures repeated <==> !Distinct(names)
  {
    var i := 0;
    while i < |names|
      invariant 0 <= i <= |names|
      invariant Distinct(names[..i])
    {
      if names[i] in names[..i] {
        return true;
      }
      assert names[..i + 1] == names[..i] + [names[i]];
      i := i + 1;
    }
    assert names[..i] == names;
    repeated := false;
  }

  method FindParam(route: Route, name: string) returns (found: bool)
    ensures found <==> route.Declares(name)
  {
    var i := 0;
    while i < |route.pathParams|
      invariant 0 <= i <= |route.pathParams|
      invariant forall j :: 0 <= j < i ==> route.pathParams[j].wire != name
    {
      if route.pathParams[i].wire == name {
        return true;
      }
      i := i + 1;
    }
    found := false;
  }

  method MissingEntries(route: Route, names: seq<string>) returns (errors: set<PathError>)
    ensures forall e :: e in errors <==> e.NoEntry? && e.name in names && e.name != "" && !route.Declares(e.name)
  {
    errors := {};
    var i := 0;
    while i < |names|
      invariant 0 <= i <= |names|
      invariant forall e :: e in errors <==>
        e.NoEntry? && e.name in names[..i] && e.name != "" && !route.Declares(e.name)
    {
      var declared := FindParam(route, names[i]);
      assert names[..i + 1] == names[..i] + [names[i]];
      if names[i] != "" && !declared {
        errors := errors + {NoEntry(names[i])};
      }
      i := i + 1;
    }
    assert names[..i] == names;
  }

  method UnusedEntries(route: Route, names: seq<string>) returns (errors: set<PathError>)
    ensures forall e :: e in errors <==> e.NotInPath? && e.name !in names && route.Declares(e.name)
  {
    errors := {};
    var i := 0;
    while i < |route.pathParams|
      invariant 0 <= i <= |route.pathParams|
      invariant forall e :: e in errors <==>
        e.NotInPath? && e.name !in names && exists j :: 0 <= j < i && route.pathParams[j].wire == e.name
    {
      if route.pathParams[i].wire !in names {
        errors := errors + {NotInPath(route.pathParams[i].wire)};
      }
      i := i + 1;
    }
  }

  method WildcardErrors(path: string, wildcards: set<string>) returns (errors: set<PathError>)
    ensures forall e :: e in errors <==> e.WildcardNotLast? && e.name in wildcards && !WildcardLast(path, e.name)
  {
    errors := {};
    var left := wildcards;
    while left != {}
      invariant left <= wildcards
      invariant forall e :: e in errors <==>
        e.WildcardNotLast? && e.name in wildcards - left && !WildcardLast(path, e.name)
      decreases left
    {
      var name :| name in left;
      if !WildcardLast(path, name) {
        errors := errors + {WildcardNotLast(name)};
      }
      left := left - {name};
    }
  }

  method ShapeErrors(path: string, names: seq<string>, wildcards: set<string>) returns (errors: set<PathError>)
    ensures forall e :: e in errors <==>
      || (e == Malformed && (Count(path, '{') != Count(path, '}') || "" in names))
      || (e == Repeated && !Distinct(names))
      || (e == ManyWildcards && |wildcards| > 1)
  {
    errors := {};
    if Count(path, '{') != Count(path, '}') || "" in names {
      errors := errors + {Malformed};
    }
    var repeated := HasRepeat(names);
    if repeated {
      errors := errors + {Repeated};
    }
    if |wildcards| > 1 {
      errors := errors + {ManyWildcards};
    }
  }

  /** The template-wide checks. */
  method TemplateErrors(route: Route) returns (errors: set<PathError>)
    ensures forall e :: e in errors <==> TemplateFault(route, e)
  {
    var names := PathParamsIn(route.path);
    var wild := WildcardParamsIn(route.path);
    var shape := ShapeErrors(route.path, names, wild);
    var missing := MissingEntries(route, names);
    var unused := UnusedEntries(route, names);
    var misplaced := WildcardErrors(route.path, wild);
    errors := shape + missing + unused + misplaced;
  }

  /** `_validate_path_params`; of each complaint, that it is made. */
  method ValidatePathParams(t: TypeTable, route: Route) returns (errors: set<PathError>)
    ensures forall e :: e in errors <==> PathFault(t, route, e)
  {
    errors := TemplateErrors(route);
    ghost var base := errors;
    var i := 0;
    while i < |route.pathParams|
      invariant 0 <= i <= |route.pathParams|
      invariant forall e :: e in errors <==> (e in base || ParamFault(t, route, e, i))
    {
      var p := route.pathParams[i];
      if !RefsResolve(t, p.ptype) {
        errors := errors + {BadType(p.wire)};
      }
      if !p.required {
        errors := errors + {NotRequired(p.wire)};
      }
      if !IsScalarLike(t, p.ptype) {
        errors := errors + {NotScalar(p.wire)};
      }
      i := i + 1;
    }
  }

  ghost predicate PathAccepted(t: TypeTable, route: Route) {
    forall e: PathError :: !PathFault(t, route, e)
  }

  // ------------------------------------- what the rules mean for builders

  lemma {:induction false} CapturesHoldNoBrace(path: string)
    ensures forall n :: n in Captures(path) ==> '{' !in n && '}' !in n
    decreases |path|
  {
    if path == "" {
    } else if path[0] == '{' && T.Find(path, '}').Some? && '{' !in path[1..T.Find(path, '}').value] {
      var end := T.Find(path, '}').value;
      CapturesHoldNoBrace(path[end + 1..]);
      var rest := Captures(path[end + 1..]);
      assert forall c :: c in path[1..end] ==> c in path[..end];
      forall n | n in [path[1..end]] + rest ensures '{' !in n && '}' !in n {
        assert n == path[1..end] || n in rest;
      }
    } else {
      CapturesHoldNoBrace(path[1..]);
    }
  }

  lemma {:induction false} StripStarsKeeps(s: string, c: char)
    ensures c in StripStars(s) ==> c in s
  {
    if s != "" && s[0] == '*' {
      StripStarsKeeps(s[1..], c);
    }
  }

  // On an accepted route the declared parameters are exactly the template's
  // placeholders, each once, and no name holds a brace.
  lemma AcceptedNames(t: TypeTable, route: Route, name: string)
    requires PathAccepted(t, route)
    ensures route.Declares(name) <==> name in PathParamsIn(route.path)
    ensures Distinct(PathParamsIn(route.path))
    ensures name in PathParamsIn(route.path) ==> name != "" && '{' !in name && '}' !in name
  {
    assert !PathFault(t, route, NotInPath(name)) && !PathFault(t, route, NoEntry(name));
    assert !PathFault(t, route, Malformed) && !PathFault(t, route, Repeated);
    if name in PathParamsIn(route.path) {
      var i :| 0 <= i < |PathParamsIn(route.path)| && PathParamsIn(route.path)[i] == name;
      CapturesHoldNoBrace(route.path);
      assert Captures(route.path)[i] in Captures(route.path);
      StripStarsKeeps(Captures(route.path)[i], '{');
      StripStarsKeeps(Captures(route.path)[i], '}');
    }
  }

  /** The placeholder texts a generated path builder refers to. */
  function ParamNames(pieces: seq<T.Piece>): seq<string> {
    if pieces == [] then []
    else (if pieces[0].Param? then [pieces[0].name] else []) + ParamNames(pieces[1..])
  }

  /** The same, straight from the template. */
  function BuilderNames(path: string): seq<string>
    decreases |path|
  {
    if path == "" then []
    else if path[0] == '{' && T.Find(path, '}').Some? then
      var end := T.Find(path, '}').value;
      [path[1..end]] + BuilderNames(path[end + 1..])
    else BuilderNames(path[1..])
  }

  lemma {:induction false} ParamNamesConcat(a: seq<T.Piece>, b: seq<T.Piece>)
    ensures ParamNames(a + b) == ParamNames(a) + ParamNames(b)
  {
    if a == [] {
      assert a + b == b;
    } else {
      assert (a + b)[1..] == a[1..] + b;
      ParamNamesConcat(a[1..], b);
    }
  }

  lemma {:induction false} PiecesNames(path: string, buf: string)
    ensures ParamNames(T.Pieces(path, buf)) == BuilderNames(path)
    decreases |path|
  {
    if path == "" {
    } else if path[0] == '{' && T.Find(path, '}').Some? {
      var end := T.Find(path, '}').value;
      var hole := [T.Param(path[1..end])];
      PiecesNames(path[end + 1..], "");
      ParamNamesConcat(T.Flush(buf) + hole, T.Pieces(path[end + 1..], ""));
      ParamNamesConcat(T.Flush(buf), hole);
      assert ParamNames(hole) == [path[1..end]];
      assert ParamNames(T.Flush(buf)) == [];
    } else {
      PiecesNames(path[1..], buf + [path[0]]);
    }
  }

  ghost predicate BraceFree(names: seq<string>) {
    forall i :: 0 <= i < |names| ==> '{' !in names[i]
  }

  lemma {:induction false} NamesAgree(path: string)
    ensures BuilderNames(path) == Captures(path) <==> BraceFree(BuilderNames(path))
    decreases |path|
  {
    CapturesHoldNoBrace(path);
    if path == "" {
    } else if path[0] == '{' && T.Find(path, '}').Some? {
      var end := T.Find(path, '}').value;
      var name, rest := path[1..end], path[end + 1..];
      NamesAgree(rest);
      var b := BuilderNames(path);
      assert b[0] == name && b[1..] == BuilderNames(rest);
      if '{' !in name {
        assert Captures(path)[1..] == Captures(rest);
        assert BraceFree(b) <==> BraceFree(b[1..]) by {
          assert forall i :: 0 < i < |b| ==> b[i] == b[1..][i - 1];
        }
      } else {
        assert Captures(path) != [] ==> Captures(path)[0] in Captures(path);
      }
    } else {
      NamesAgree(path[1..]);
    }
  }

  // The validator reads placeholders with a regular expression, the builders
  // with a scanner. They see the same names exactly when no brace opens inside
  // a placeholder; nothing in the validator demands that.
  lemma ReadersAgreeIffUnnested(path: string)
    ensures ParamNames(T.Pieces(path, "")) == Captures(path)
      <==> BraceFree(ParamNames(T.Pieces(path, "")))
  {
    PiecesNames(path, "");
    NamesAgree(path);
  }
}

// The request-surface document of an operation (ridl/emit/json_schema.py):
// what it accepts, in terms of the route's own declarations.
module OperationDocs {
  import opened Basics
  import opened Json
  import opened Types
  import opened Conformance
  import opened Schemas
  import opened SchemaProjection

  // Parameters are declared like fields.
  datatype Operation = Operation(
    methods: seq<string>, path: string,
    pathParams: seq<Field>, queryParams: seq<Field>, headerParams: seq<Field>,
    request: Option<TypeExpr>)

  // The members of a request surface.
  datatype Part = Method | Template | Path | Query | Headers | Body

  function PartName(p: Part): string {
    match p
    case Method => "method"
    case Template => "pathTemplate"
    case Path => "path"
    case Query => "query"
    case Headers => "headers"
    case Body => "body"
  }

  lemma PartNamesDiffer(p: Part, q: Part)
    ensures PartName(p) == PartName(q) <==> p == q
  {}

  // ----------------------------------------------------- parameter objects

  /** A parameter with a default is still listed as required when it is. */
  function Undefaulted(params: seq<Field>): (r: seq<Field>)
    ensures |r| == |params|
    ensures forall i :: 0 <= i < |r| ==> r[i] == params[i].(hasDefault := false)
  {
    if params == [] then [] else [params[0].(hasDefault := false)] + Undefaulted(params[1..])
  }

  /** `_params_schema`. */
  function ParamsSchema(params: seq<Field>): Schema {
    ClosedObject(FieldProperties(params), RequiredNames(params))
  }

  function RequiredNames(params: seq<Field>): seq<string> {
    if params == [] then []
    else (if params[0].required then [params[0].wire] else []) + RequiredNames(params[1..])
  }

  lemma {:induction false} UndefaultedProjection(params: seq<Field>)
    ensures FieldProperties(Undefaulted(params)) == FieldProperties(params)
    ensures RequiredFields(Undefaulted(params)) == RequiredNames(params)
  {
    if params != [] {
      UndefaultedProjection(params[1..]);
      assert Undefaulted(params)[1..] == Undefaulted(params[1..]);
    }
  }

  ghost predicate ParamsOk(t: TypeTable, params: seq<Field>) {
    && (forall i :: 0 <= i < |params| ==> RefsResolve(t, params[i].ftype))
    && (forall i, j :: 0 <= i < j < |params| ==> params[i].wire != params[j].wire)
  }

  /** The value is an object of declared parameters, the required ones present. */
  ghost predicate FitsParams(t: TypeTable, c: Checks, params: seq<Field>, v: Json) {
    exists k: nat :: FitsParamsIn(t, c, params, v, k)
  }

  ghost predicate FitsParamsIn(t: TypeTable, c: Checks, params: seq<Field>, v: Json, k: nat) {
    FitsDef(t, c, RecordDef(Undefaulted(params)), v, k)
  }

  lemma ParamsAt(t: TypeTable, ranks: Ranks, c: Checks, params: seq<Field>, v: Json, k: nat)
    requires Resolved(t) && Ranked(t, ranks) && ParamsOk(t, params)
    requires Budget(|t.defs|, Depth(v)) <= k + 1
    ensures Eval(DefsOf(t), c, ParamsSchema(params), v, {}) == Decide(FitsParamsIn(t, c, params, v, k))
  {
    var fields := Undefaulted(params);
    UndefaultedProjection(params);
    assert DefResolves(t, RecordDef(fields));
    RecordMeans(t, ranks, c, fields, v, {}, k);
  }

  lemma MoreFuel(t: TypeTable, c: Checks, params: seq<Field>, v: Json, k: nat, more: nat)
    requires FitsParamsIn(t, c, params, v, k) && k <= more
    ensures FitsParamsIn(t, c, params, v, more)
  {
    FitsDefMonotone(t, c, RecordDef(Undefaulted(params)), v, k, more);
  }

  // Any fuel that shows a value to fit can be traded for the sufficient one.
  lemma EnoughForParams(t: TypeTable, ranks: Ranks, c: Checks, params: seq<Field>, v: Json, j: nat, k: nat)
    requires Resolved(t) && Ranked(t, ranks) && ParamsOk(t, params)
    requires FitsParamsIn(t, c, params, v, j) && k == Budget(|t.defs|, Depth(v))
    ensures FitsParamsIn(t, c, params, v, k)
  {
    MoreFuel(t, c, params, v, j, j + k);
    ghost var verdict := Eval(DefsOf(t), c, ParamsSchema(params), v, {});
    assert verdict == Valid by {
      ParamsAt(t, ranks, c, params, v, j + k);
    }
    ParamsAt(t, ranks, c, params, v, k);
  }

  lemma ParamsMean(t: TypeTable, c: Checks, params: seq<Field>, v: Json)
    requires Resolved(t) && Guarded(t) && ParamsOk(t, params)
    ensures Eval(DefsOf(t), c, ParamsSchema(params), v, {}) == Decide(FitsParams(t, c, params, v))
  {
    var ranks := GuardedRanks(t);
    var k := Budget(|t.defs|, Depth(v));
    ParamsAt(t, ranks, c, params, v, k);
    if j: nat :| FitsParamsIn(t, c, params, v, j) {
      EnoughForParams(t, ranks, c, params, v, j, k);
    }
  }

  // -------------------------------------------------------- the document

  function OneOf(values: seq<string>): Schema { ANY_VALUE.(enum_ := Some(values)) }

  function ParamsOf(op: Operation, p: Part): seq<Field>
    requires p.Path? || p.Query? || p.Headers?
  {
    if p.Path? then op.pathParams else if p.Query? then op.queryParams else op.headerParams
  }

  /** What the document says about a member, if it knows the member. */
  function PartSchema(op: Operation, p: Part): Option<Schema> {
    match p
    case Method => Some(OneOf(op.methods))
    case Template => Some(OneOf([op.path]))
    case Body => if op.request.Some? then Some(TypeSchema(op.request.value)) else None
    case _ => if ParamsOf(op, p) == [] then None else Some(ParamsSchema(ParamsOf(op, p)))
  }

  predicate AnyRequired(params: seq<Field>) {
    exists i :: 0 <= i < |params| && params[i].required
  }

  predicate PartRequired(op: Operation, p: Part) {
    match p
    case Method => true
    case Template => true
    case Body => op.request.Some?
    case Path => op.pathParams != []
    case _ => AnyRequired(ParamsOf(op, p))
  }

  const ORDER: seq<Part> := [Method, Template, Path, Query, Headers, Body]

  function Property(op: Operation, p: Part): seq<(string, Schema)> {
    match PartSchema(op, p)
    case None => []
    case Some(s) => [(PartName(p), s)]
  }

  function RequiredName(op: Operation, p: Part): seq<string> {
    if PartRequired(op, p) then [PartName(p)] else []
  }

  function PropertiesOf(op: Operation, parts: seq<Part>): seq<(string, Schema)> {
    if parts == [] then [] else Property(op, parts[0]) + PropertiesOf(op, parts[1..])
  }

  function RequiredOfParts(op: Operation, parts: seq<Part>): seq<string> {
    if parts == [] then [] else RequiredName(op, parts[0]) + RequiredOfParts(op, parts[1..])
  }

  lemma {:induction false} PropertiesSnoc(op: Operation, parts: seq<Part>, last: Part)
    ensures PropertiesOf(op, parts + [last]) == PropertiesOf(op, parts) + Property(op, last)
  {
    if parts == [] {
      assert [last][1..] == [] && parts + [last] == [last];
    } else {
      assert (parts + [last])[0] == parts[0] && (parts + [last])[1..] == parts[1..] + [last];
      PropertiesSnoc(op, parts[1..], last);
    }
  }

  lemma {:induction false} RequiredSnoc(op: Operation, parts: seq<Part>, last: Part)
    ensures RequiredOfParts(op, parts + [last]) == RequiredOfParts(op, parts) + RequiredName(op, last)
  {
    if parts == [] {
      assert [last][1..] == [] && parts + [last] == [last];
    } else {
      assert (parts + [last])[0] == parts[0] && (parts + [last])[1..] == parts[1..] + [last];
      RequiredSnoc(op, parts[1..], last);
    }
  }

  lemma PartsSnoc(op: Operation, parts: seq<Part>, last: Part)
    ensures PropertiesOf(op, parts + [last]) == PropertiesOf(op, parts) + Property(op, last)
    ensures RequiredOfParts(op, parts + [last]) == RequiredOfParts(op, parts) + RequiredName(op, last)
  {
    PropertiesSnoc(op, parts, last);
    RequiredSnoc(op, parts, last);
  }

  function OperationSchema(op: Operation): Schema {
    ClosedObject(PropertiesOf(op, ORDER), RequiredOfParts(op, ORDER))
  }

  method AnyRequiredLoop(params: seq<Field>) returns (any: bool)
    ensures any == AnyRequired(params)
  {
    var i := 0;
    while i < |params|
      invariant 0 <= i <= |params|
      invariant forall j :: 0 <= j < i ==> !params[j].required
    {
      if params[i].required {
        return true;
      }
      i := i + 1;
    }
    any := false;
  }

  const FRONT: seq<Part> := [Method, Template, Path, Query, Headers]

  /** The operation branch of `emit`. */
  method EmitOperation(op: Operation) returns (s: Schema)
    ensures s == OperationSchema(op)
  {
    var properties, required := EmitFront(op);
    PartsSnoc(op, FRONT, Body);
    assert FRONT + [Body] == ORDER;
    if op.request.Some? {
      properties := properties + [(PartName(Body), TypeSchema(op.request.value))];
      required := required + [PartName(Body)];
    }
    s := ClosedObject(properties, required);
  }

  method EmitFront(op: Operation) returns (properties: seq<(string, Schema)>, required: seq<string>)
    ensures properties == PropertiesOf(op, FRONT)
    ensures required == RequiredOfParts(op, FRONT)
  {
    properties := Property(op, Method) + Property(op, Template);
    required := RequiredName(op, Method) + RequiredName(op, Template);
    FirstParts(op);
    assert FRONT[..2] == [Method, Template];
    var i := 2;
    while i < |FRONT|
      invariant 2 <= i <= |FRONT|
      invariant properties == PropertiesOf(op, FRONT[..i])
      invariant required == RequiredOfParts(op, FRONT[..i])
    {
      PartsSnoc(op, FRONT[..i], FRONT[i]);
      assert FRONT[..i + 1] == FRONT[..i] + [FRONT[i]];
      properties, required := AddParams(op, FRONT[i], properties, required);
      i := i + 1;
    }
    assert FRONT[..i] == FRONT;
  }

  method AddParams(op: Operation, p: Part, properties: seq<(string, Schema)>, required: seq<string>)
    returns (properties': seq<(string, Schema)>, required': seq<string>)
    requires p.Path? || p.Query? || p.Headers?
    ensures properties' == properties + Property(op, p)
    ensures required' == required + RequiredName(op, p)
  {
    properties', required' := properties, required;
    var params := ParamsOf(op, p);
    if params == [] {
      return;
    }
    properties' := properties' + [(PartName(p), ParamsSchema(params))];
    var any := AnyRequiredLoop(params);
    if p.Path? || any {
      required' := required' + [PartName(p)];
    }
  }

  lemma FirstParts(op: Operation)
    ensures PropertiesOf(op, [Method, Template]) == Property(op, Method) + Property(op, Template)
    ensures RequiredOfParts(op, [Method, Template]) == RequiredName(op, Method) + RequiredName(op, Template)
  {
    PartsSnoc(op, [], Method);
    PartsSnoc(op, [Method], Template);
    assert [] + [Method] == [Method] && [Method] + [Template] == [Method, Template];
  }

  // ----------------------------------------------------------- its meaning

  /** What a route declares about one member of a request. */
  ghost predicate PartFits(t: TypeTable, c: Checks, op: Operation, p: Part, v: Json) {
    match p
    case Method => v.Str? && v.s in op.methods
    case Template => v == Str(op.path)
    case Body => op.request.Some? && Conforms(t, c, op.request.value, v)
    case _ => ParamsOf(op, p) != [] && FitsParams(t, c, ParamsOf(op, p), v)
  }

  ghost predicate MemberFits(t: TypeTable, c: Checks, op: Operation, m: (string, Json)) {
    exists p :: PartName(p) == m.0 && PartFits(t, c, op, p, m.1)
  }

  ghost predicate AllPartsPresent(op: Operation, v: Json)
    requires v.Obj?
  {
    forall p :: PartRequired(op, p) ==> HasMember(v, PartName(p))
  }

  /** A member that the operation declares, with a value it declares. */
  ghost predicate Declared(t: TypeTable, c: Checks, op: Operation, m: (string, Json)) {
    || (m.0 == "method" && m.1.Str? && m.1.s in op.methods)
    || (m.0 == "pathTemplate" && m.1 == Str(op.path))
    || (m.0 == "path" && op.pathParams != [] && FitsParams(t, c, op.pathParams, m.1))
    || (m.0 == "query" && op.queryParams != [] && FitsParams(t, c, op.queryParams, m.1))
    || (m.0 == "headers" && op.headerParams != [] && FitsParams(t, c, op.headerParams, m.1))
    || (m.0 == "body" && op.request.Some? && Conforms(t, c, op.request.value, m.1))
  }

  /** A request surface of the operation: the members it needs, and no member
      it does not declare. */
  ghost predicate IsSurface(t: TypeTable, c: Checks, op: Operation, v: Json) {
    && v.Obj?
    && HasMember(v, "method") && HasMember(v, "pathTemplate")
    && (op.pathParams != [] ==> HasMember(v, "path"))
    && ((exists i :: 0 <= i < |op.queryParams| && op.queryParams[i].required) ==> HasMember(v, "query"))
    && ((exists i :: 0 <= i < |op.headerParams| && op.headerParams[i].required) ==> HasMember(v, "headers"))
    && (op.request.Some? ==> HasMember(v, "body"))
    && (forall i :: 0 <= i < |v.members| ==> Declared(t, c, op, v.members[i]))
  }

  lemma PresentByPart(op: Operation, v: Json)
    requires v.Obj?
    ensures AllPartsPresent(op, v) <==>
      && HasMember(v, "method") && HasMember(v, "pathTemplate")
      && (op.pathParams != [] ==> HasMember(v, "path"))
      && ((exists i :: 0 <= i < |op.queryParams| && op.queryParams[i].required) ==> HasMember(v, "query"))
      && ((exists i :: 0 <= i < |op.headerParams| && op.headerParams[i].required) ==> HasMember(v, "headers"))
      && (op.request.Some? ==> HasMember(v, "body"))
  {
    if AllPartsPresent(op, v) {
      assert PartRequired(op, Method) ==> HasMember(v, PartName(Method));
      assert PartRequired(op, Template) ==> HasMember(v, PartName(Template));
      assert PartRequired(op, Path) ==> HasMember(v, PartName(Path));
      assert PartRequired(op, Query) ==> HasMember(v, PartName(Query));
      assert PartRequired(op, Headers) ==> HasMember(v, PartName(Headers));
      assert PartRequired(op, Body) ==> HasMember(v, PartName(Body));
    }
  }

  lemma DeclaredByPart(t: TypeTable, c: Checks, op: Operation, m: (string, Json))
    ensures MemberFits(t, c, op, m) <==> Declared(t, c, op, m)
  {
    if Declared(t, c, op, m) {
      var p := if m.0 == "method" then Method else if m.0 == "pathTemplate" then Template
        else if m.0 == "path" then Path else if m.0 == "query" then Query
        else if m.0 == "headers" then Headers else Body;
      assert PartName(p) == m.0 && PartFits(t, c, op, p, m.1);
    }
  }

  ghost predicate OperationOk(t: TypeTable, op: Operation) {
    && ParamsOk(t, op.pathParams) && ParamsOk(t, op.queryParams) && ParamsOk(t, op.headerParams)
    && (op.request.Some? ==> RefsResolve(t, op.request.value))
  }

  lemma OneOfMeans(defs: Defs, c: Checks, values: seq<string>, v: Json)
    ensures Eval(defs, c, OneOf(values), v, {}) == Decide(v.Str? && v.s in values)
  {
    PlainMeaning(defs, c, OneOf(values), v, {});
  }

  lemma PartMeans(t: TypeTable, c: Checks, op: Operation, p: Part, v: Json)
    requires Resolved(t) && Guarded(t) && OperationOk(t, op)
    ensures PartSchema(op, p).None? ==> !PartFits(t, c, op, p, v)
    ensures PartSchema(op, p).Some? ==>
      Eval(DefsOf(t), c, PartSchema(op, p).value, v, {}) == Decide(PartFits(t, c, op, p, v))
  {
    match p
    case Method => OneOfMeans(DefsOf(t), c, op.methods, v);
    case Template => OneOfMeans(DefsOf(t), c, [op.path], v);
    case Body => if op.request.Some? { SchemaMeansType(t, c, op.request.value, v); }
    case _ => ParamsMean(t, c, ParamsOf(op, p), v);
  }

  ghost predicate AllDifferent(parts: seq<Part>) {
    forall i, j :: 0 <= i < j < |parts| ==> parts[i] != parts[j]
  }

  lemma OneProperty(op: Operation, p: Part, name: string)
    ensures Get(Property(op, p), name) == if name == PartName(p) then PartSchema(op, p) else None
  {}

  lemma {:induction false} PropertyOfPart(op: Operation, parts: seq<Part>, p: Part)
    requires p in parts && AllDifferent(parts)
    ensures Get(PropertiesOf(op, parts), PartName(p)) == PartSchema(op, p)
  {
    var first, rest := parts[0], parts[1..];
    GetConcat(Property(op, first), PropertiesOf(op, rest), PartName(p));
    OneProperty(op, first, PartName(p));
    PartNamesDiffer(p, first);
    if first == p {
      forall q | q in rest ensures PartName(q) != PartName(p) {
        PartNamesDiffer(q, p);
      }
      NoPropertyOfPart(op, rest, PartName(p));
    } else {
      PropertyOfPart(op, rest, p);
    }
  }

  lemma {:induction false} NoPropertyOfPart(op: Operation, parts: seq<Part>, name: string)
    requires forall p :: p in parts ==> PartName(p) != name
    ensures Get(PropertiesOf(op, parts), name) == None
  {
    if parts != [] {
      var first, rest := parts[0], parts[1..];
      assert first in parts;
      GetConcat(Property(op, first), PropertiesOf(op, rest), name);
      OneProperty(op, first, name);
      NoPropertyOfPart(op, rest, name);
    }
  }

  lemma {:induction false} RequiredParts(op: Operation, parts: seq<Part>, v: Json)
    requires v.Obj?
    ensures AllPresent(RequiredOfParts(op, parts), v)
      <==> forall p :: p in parts && PartRequired(op, p) ==> HasMember(v, PartName(p))
  {
    if parts != [] {
      var p, rest := parts[0], parts[1..];
      var head := RequiredName(op, p);
      RequiredParts(op, rest, v);
      GetSpec(v.members, PartName(p));
      assert Get(v.members, PartName(p)).Some? <==> HasMember(v, PartName(p));
      AllPresentSplit(head, RequiredOfParts(op, rest), v);
      assert PartRequired(op, p) ==> head[0] == PartName(p);
      assert AllPresent(head, v) <==> (PartRequired(op, p) ==> HasMember(v, PartName(p)));
      assert forall q :: q in parts <==> q == p || q in rest;
    }
  }

  lemma EveryPart(p: Part)
    ensures p in ORDER && AllDifferent(ORDER)
  {}

  lemma MemberMeans(t: TypeTable, c: Checks, op: Operation, m: (string, Json))
    requires Resolved(t) && Guarded(t) && OperationOk(t, op)
    ensures EvalMember(DefsOf(t), c, PropertiesOf(op, ORDER), Forbidden, m) == Decide(MemberFits(t, c, op, m))
  {
    if p :| PartName(p) == m.0 {
      EveryPart(p);
      PropertyOfPart(op, ORDER, p);
      PartMeans(t, c, op, p, m.1);
      forall q | PartName(q) == m.0 ensures q == p {
        PartNamesDiffer(p, q);
      }
    } else {
      NoPropertyOfPart(op, ORDER, m.0);
    }
  }

  // An operation document accepts exactly the request surfaces its route
  // declares, and evaluating it always ends.
  lemma OperationDocMeans(t: TypeTable, c: Checks, op: Operation, v: Json)
    requires Resolved(t) && Guarded(t) && OperationOk(t, op)
    ensures Eval(DefsOf(t), c, OperationSchema(op), v, {}) == Decide(IsSurface(t, c, op, v))
  {
    var props, required := PropertiesOf(op, ORDER), RequiredOfParts(op, ORDER);
    ObjectMeaning(DefsOf(t), c, props, required, v, {});
    if v.Obj? {
      RequiredParts(op, ORDER, v);
      forall p: Part ensures p in ORDER {
        EveryPart(p);
      }
      PresentByPart(op, v);
      assert AllPresent(required, v) == forall i :: 0 <= i < |required| ==> Get(v.members, required[i]).Some?;
      forall j | 0 <= j < |v.members|
        ensures EvalMember(DefsOf(t), c, props, Forbidden, v.members[j]) == Decide(Declared(t, c, op, v.members[j]))
      {
        MemberMeans(t, c, op, v.members[j]);
        DeclaredByPart(t, c, op, v.members[j]);
      }
      MembersPointwise(DefsOf(t), c, props, Forbidden, v.members);
    }
  }
}

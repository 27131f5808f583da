// The per-definition rules of a type table (`_validate_types`,
// `_validate_record`, `_validate_enum` and `_validate_refs` in
// ridl/validate.py).
module TypeRules {
  import opened Basics
  import opened Json
  import opened Naming
  import opened Types
  import opened Graph
  import opened Acyclic
  import opened Conformance
  import opened Inhabited

  datatype TypeFault =
    | BadTypeName(name: string)
    | RedefinesBuiltin(name: string)
    | NoFields
    | DuplicateField(wire: string)
    | BadWireName(wire: string)
    | UnknownType(name: string)
    | NestedOption
    | DefaultAndRequired(wire: string)
    | DuplicateVariant(variant: string)
    | BadVariant(variant: string)
    | Cycle(path: seq<string>)

  predicate BuiltinName(n: string) {
    n in ["String", "Bool", "I32", "I64", "F64", "Uuid", "DateTime", "Decimal", "Json"]
  }

  // -------------------------------------------------------- references

  /** `walk_type`: an expression and everything inside it, outermost first. */
  function WalkType(e: TypeExpr): seq<TypeExpr> {
    match e
    case ListOf(item) => [e] + WalkType(item)
    case MapOf(value) => [e] + WalkType(value)
    case OptionOf(inner) => [e] + WalkType(inner)
    case _ => [e]
  }

  predicate NodeOk(t: TypeTable, e: TypeExpr) {
    && (e.Named? ==> e.name in t.defs)
    && !(e.OptionOf? && e.inner.OptionOf?)
  }

  ghost predicate NodesOk(t: TypeTable, nodes: seq<TypeExpr>) {
    forall i :: 0 <= i < |nodes| ==> NodeOk(t, nodes[i])
  }

  lemma {:induction false} WalkDecides(t: TypeTable, e: TypeExpr)
    ensures NodesOk(t, WalkType(e)) <==> RefsResolve(t, e)
  {
    match e
    case ListOf(item) =>
      WalkDecides(t, item);
      NodesCons(t, e, WalkType(item));
      assert WalkType(e) == [e] + WalkType(item) && NamedIn(e) == NamedIn(item);
    case MapOf(value) =>
      WalkDecides(t, value);
      NodesCons(t, e, WalkType(value));
      assert WalkType(e) == [e] + WalkType(value) && NamedIn(e) == NamedIn(value);
    case OptionOf(inner) =>
      WalkDecides(t, inner);
      NodesCons(t, e, WalkType(inner));
      assert WalkType(e) == [e] + WalkType(inner) && NamedIn(e) == NamedIn(inner);
    case Named(n) => assert NamedIn(e)[0] == n && WalkType(e)[0] == e;
    case Base(_) =>
  }

  lemma NodesCons(t: TypeTable, e: TypeExpr, rest: seq<TypeExpr>)
    ensures NodesOk(t, [e] + rest) <==> NodeOk(t, e) && NodesOk(t, rest)
  {
    var all := [e] + rest;
    assert all[0] == e;
    assert forall i :: 0 <= i < |rest| ==> all[i + 1] == rest[i];
  }

  /** `_validate_refs`. */
  method ValidateRefs(t: TypeTable, e: TypeExpr) returns (errors: seq<TypeFault>)
    ensures errors == [] <==> RefsResolve(t, e)
  {
    errors := [];
    var nodes := WalkType(e);
    var i := 0;
    while i < |nodes|
      invariant 0 <= i <= |nodes|
      invariant errors == [] <==> forall j :: 0 <= j < i ==> NodeOk(t, nodes[j])
    {
      var node := nodes[i];
      if node.Named? && node.name !in t.defs {
        errors := errors + [UnknownType(node.name)];
      }
      if node.OptionOf? && node.inner.OptionOf? {
        errors := errors + [NestedOption];
      }
      i := i + 1;
    }
    WalkDecides(t, e);
  }

  // -------------------------------------------------------- definitions

  ghost predicate FieldOk(t: TypeTable, f: Field) {
    Ident(Chomp(f.wire)) && RefsResolve(t, f.ftype) && !(f.hasDefault && f.required)
  }

  ghost predicate FieldsOk(t: TypeTable, fields: seq<Field>) {
    && (forall i :: 0 <= i < |fields| ==> FieldOk(t, fields[i]))
    && (forall i, j :: 0 <= i < j < |fields| ==> fields[i].wire != fields[j].wire)
  }

  ghost predicate VariantsOk(variants: seq<string>) {
    Distinct(variants) && forall i :: 0 <= i < |variants| ==> SnakeCase(Chomp(variants[i]))
  }

  ghost predicate DefAccepted(t: TypeTable, d: TypeDef) {
    match d
    case RecordDef(fields) => fields != [] && FieldsOk(t, fields)
    case EnumDef(variants) => VariantsOk(variants)
    case ScalarDef(_) => true
    case AliasDef(target) => RefsResolve(t, target)
  }

  lemma FieldsSnoc(t: TypeTable, fields: seq<Field>, f: Field)
    ensures FieldsOk(t, fields + [f])
      <==> FieldsOk(t, fields) && FieldOk(t, f) && forall i :: 0 <= i < |fields| ==> fields[i].wire != f.wire
  {
    var all := fields + [f];
    assert all[|fields|] == f;
    assert forall i :: 0 <= i < |fields| ==> all[i] == fields[i];
  }

  method ValidateField(t: TypeTable, f: Field) returns (errors: seq<TypeFault>)
    ensures errors == [] <==> FieldOk(t, f)
  {
    errors := [];
    if !Ident(Chomp(f.wire)) {
      errors := errors + [BadWireName(f.wire)];
    }
    var refs := ValidateRefs(t, f.ftype);
    errors := errors + refs;
    if f.hasDefault && f.required {
      errors := errors + [DefaultAndRequired(f.wire)];
    }
  }

  /** `_validate_record`. */
  method ValidateRecord(t: TypeTable, fields: seq<Field>) returns (errors: seq<TypeFault>)
    ensures errors == [] <==> fields != [] && FieldsOk(t, fields)
  {
    errors := if fields == [] then [NoFields] else [];
    var seen: set<string> := {};
    var i := 0;
    while i < |fields|
      invariant 0 <= i <= |fields|
      invariant forall w :: w in seen <==> exists j :: 0 <= j < i && fields[j].wire == w
      invariant errors == [] <==> fields != [] && FieldsOk(t, fields[..i])
    {
      var f := fields[i];
      var repeated := f.wire in seen;
      assert FieldsOk(t, fields[..i + 1]) <==> FieldsOk(t, fields[..i]) && FieldOk(t, f) && !repeated by {
        FieldsSnoc(t, fields[..i], f);
        assert fields[..i + 1] == fields[..i] + [f];
      }
      if repeated {
        errors := errors + [DuplicateField(f.wire)];
      }
      seen := seen + {f.wire};
      var own := ValidateField(t, f);
      errors := errors + own;
      i := i + 1;
    }
    assert fields[..i] == fields;
  }

  /** `_validate_enum`. */
  method ValidateEnum(variants: seq<string>) returns (errors: seq<TypeFault>)
    ensures errors == [] <==> VariantsOk(variants)
  {
    errors := [];
    var i := 0;
    while i < |variants|
      invariant 0 <= i <= |variants|
      invariant errors == [] <==> VariantsOk(variants[..i])
    {
      assert variants[..i + 1] == variants[..i] + [variants[i]];
      if variants[i] in variants[..i] {
        errors := errors + [DuplicateVariant(variants[i])];
      }
      if !SnakeCase(Chomp(variants[i])) {
        errors := errors + [BadVariant(variants[i])];
      }
      i := i + 1;
    }
    assert variants[..i] == variants;
  }

  method ValidateDefinition(t: TypeTable, d: TypeDef) returns (errors: seq<TypeFault>)
    ensures errors == [] <==> DefAccepted(t, d)
  {
    match d
    case RecordDef(fields) => errors := ValidateRecord(t, fields);
    case EnumDef(variants) => errors := ValidateEnum(variants);
    case ScalarDef(_) => errors := [];
    case AliasDef(target) => errors := ValidateRefs(t, target);
  }

  ghost predicate TypesAccepted(t: TypeTable) {
    && (forall n :: n in t.defs ==> Ident(Chomp(n)) && !BuiltinName(n) && DefAccepted(t, t.defs[n]))
    && WellFounded(DefinitionGraph(t))
  }

  /** `_validate_types`. */
  method ValidateTypes(t: TypeTable) returns (errors: seq<TypeFault>)
    requires t.Valid()
    ensures errors == [] <==> TypesAccepted(t)
  {
    errors := [];
    var i := 0;
    while i < |t.order|
      invariant 0 <= i <= |t.order|
      invariant errors == [] <==> forall j :: 0 <= j < i ==>
        Ident(Chomp(t.order[j])) && !BuiltinName(t.order[j]) && DefAccepted(t, t.defs[t.order[j]])
    {
      var name := t.order[i];
      if !Ident(Chomp(name)) {
        errors := errors + [BadTypeName(name)];
      }
      if BuiltinName(name) {
        errors := errors + [RedefinesBuiltin(name)];
      }
      var more := ValidateDefinition(t, t.defs[name]);
      errors := errors + more;
      i := i + 1;
    }
    var cycles := ValidateAcyclic(t);
    errors := errors + seq(|cycles|, k requires 0 <= k < |cycles| => Cycle(cycles[k]));
  }

  // What the type layer relies on follows from acceptance; that an enum has a
  // variant at all is already demanded when it is parsed.
  lemma AcceptedIsResolved(t: TypeTable)
    requires t.Valid() && TypesAccepted(t)
    requires forall n :: n in t.defs && t.defs[n].EnumDef? ==> t.defs[n].variants != []
    ensures Resolved(t)
  {
    forall n | n in t.defs ensures DefResolves(t, t.defs[n]) {
      assert DefAccepted(t, t.defs[n]);
      if t.defs[n].RecordDef? {
        var fields := t.defs[n].fields;
        forall i | 0 <= i < |fields|
          ensures RefsResolve(t, fields[i].ftype) && !(fields[i].hasDefault && fields[i].required)
        {
          assert FieldOk(t, fields[i]);
        }
      }
    }
  }

  // So every type of an accepted table has a value.
  lemma AcceptedIsInhabited(t: TypeTable, c: Checks, n: string)
    requires t.Valid() && TypesAccepted(t) && BuiltinsInhabited(c)
    requires forall m :: m in t.defs && t.defs[m].EnumDef? ==> t.defs[m].variants != []
    requires n in t.defs
    ensures exists v :: WellFormed(v) && Conforms(t, c, Named(n), v)
  {
    AcceptedIsResolved(t);
    assert n in DefinitionGraph(t);
    var k: nat :| Grounded(DefinitionGraph(t), n, k);
    var v, fuel := BuildValue(t, c, n, k);
    assert Conforms(t, c, Named(n), v);
  }
}

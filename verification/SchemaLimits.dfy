// Where the projection stops working: which references resolve where, and
// exactly which tables make schema evaluation run forever.
module SchemaLimits {
  import opened Json
  import opened Naming
  import opened Types
  import opened Graph
  import opened Acyclic
  import opened TypeRules
  import opened Conformance
  import opened Schemas
  import opened SchemaProjection
  import opened OperationDocs

  // ---------------------------------------------------------- termination

  lemma {:induction false} HeadStuck(t: TypeTable, c: Checks, e: TypeExpr, m: string, v: Json, seen: set<string>)
    requires Head(e) == [m]
    requires Eval(DefsOf(t), c, RefTo(m), v, seen) == Stuck
    ensures Eval(DefsOf(t), c, TypeSchema(e), v, seen) == Stuck
  {
    match e
    case Named(_) =>
    case OptionOf(inner) =>
      HeadStuck(t, c, inner, m, v, seen);
      NullableMeaning(DefsOf(t), c, TypeSchema(inner), v, seen);
  }

  // From any node of a cycle of aliases, evaluation comes back to a
  // reference it is already following, whatever the value.
  lemma {:induction false} CycleStuck(t: TypeTable, c: Checks, cycle: seq<string>, i: nat, v: Json, seen: set<string>)
    requires IsCycle(AliasGraph(t), cycle) && i < |cycle| - 1
    ensures Eval(DefsOf(t), c, RefTo(cycle[i]), v, seen) == Stuck
    decreases t.defs.Keys - seen
  {
    var n := cycle[i];
    RefMeaning(DefsOf(t), c, n, v, seen);
    assert cycle[i + 1] in AliasGraph(t)[n];
    if n !in seen {
      var next := if i + 1 == |cycle| - 1 then 0 else i + 1;
      var target := t.defs[n].target;
      HeadIsOne(target);
      assert Head(target) == [cycle[next]];
      CycleStuck(t, c, cycle, next, v, seen + {n});
      HeadStuck(t, c, target, cycle[next], v, seen + {n});
    }
  }

  lemma {:induction false} HeadIsOne(e: TypeExpr)
    ensures |Head(e)| <= 1
  {
    if e.OptionOf? {
      HeadIsOne(e.inner);
    }
  }

  ghost predicate AlwaysEnds(t: TypeTable, c: Checks) {
    forall n, v :: n in t.defs ==> Eval(DefsOf(t), c, RefTo(n), v, {}) != Stuck
  }

  // Evaluation ends on every value exactly when no alias reaches itself
  // through aliases and options.
  lemma EvaluationEndsIffGuarded(t: TypeTable, c: Checks)
    requires Resolved(t)
    ensures AlwaysEnds(t, c) <==> Guarded(t)
    ensures !Guarded(t) ==> exists n :: n in t.defs && forall v :: Eval(DefsOf(t), c, RefTo(n), v, {}) == Stuck
  {
    var g := AliasGraph(t);
    WellFoundedIffAcyclic(g);
    if Guarded(t) {
      forall n, v | n in t.defs ensures Eval(DefsOf(t), c, RefTo(n), v, {}) != Stuck {
        assert RefsResolve(t, Named(n));
        assert TypeSchema(Named(n)) == RefTo(n);
        SchemaMeansType(t, c, Named(n), v);
      }
    } else {
      var cycle :| IsCycle(g, cycle);
      assert cycle[0] in g;
      forall v ensures Eval(DefsOf(t), c, RefTo(cycle[0]), v, {}) == Stuck {
        CycleStuck(t, c, cycle, 0, v, {});
      }
      assert Eval(DefsOf(t), c, RefTo(cycle[0]), Null, {}) == Stuck;
    }
  }

  const SELF_OPTION: TypeTable :=
    TypeTable(["Loop"], map["Loop" := AliasDef(OptionOf(Named("Loop")))])

  lemma LoopIsAName()
    ensures Ident(Chomp("Loop")) && !BuiltinName("Loop")
  {}

  // The validator's rules do not exclude this: an alias for an option of
  // itself resolves and passes the cycle check, has a value (null), and yet
  // its schema cannot be evaluated on any value at all.
  lemma AcceptedButStuck(c: Checks, v: Json)
    ensures SELF_OPTION.Valid() && TypesAccepted(SELF_OPTION) && Resolved(SELF_OPTION)
    ensures Conforms(SELF_OPTION, c, Named("Loop"), Null)
    ensures Eval(DefsOf(SELF_OPTION), c, RefTo("Loop"), v, {}) == Stuck
  {
    var t := SELF_OPTION;
    assert NamedIn(t.defs["Loop"].target) == ["Loop"];
    assert DefinitionGraph(t)["Loop"] == [];
    forall n | n in DefinitionGraph(t) ensures exists k: nat :: Grounded(DefinitionGraph(t), n, k) {
      assert Grounded(DefinitionGraph(t), n, 1);
    }
    LoopIsAName();
    AcceptedIsResolved(t);
    assert Fits(t, c, Named("Loop"), Null, 1);
    var cycle := ["Loop", "Loop"];
    assert AliasGraph(t)["Loop"] == ["Loop"];
    assert IsCycle(AliasGraph(t), cycle);
    CycleStuck(t, c, cycle, 0, v, {});
  }

  // ----------------------------------------------------------- references

  /** Every `$ref` a document contains. */
  function RefsIn(s: Schema): set<string>
    decreases s, 1
  {
    (if s.ref.Some? then {s.ref.value} else {})
    + RefsInAll(s.anyOf)
    + (if s.items.Some? then RefsIn(s.items.value) else {})
    + RefsInProperties(s.properties)
    + (if s.additional.Each? then RefsIn(s.additional.schema) else {})
  }

  function RefsInAll(ss: seq<Schema>): set<string>
    decreases ss, 0
  {
    if ss == [] then {} else RefsIn(ss[0]) + RefsInAll(ss[1..])
  }

  function RefsInProperty(p: (string, Schema)): set<string>
    decreases p, 2
  {
    RefsIn(p.1)
  }

  function RefsInProperties(ps: seq<(string, Schema)>): set<string>
    decreases ps, 0
  {
    if ps == [] then {} else RefsInProperty(ps[0]) + RefsInProperties(ps[1..])
  }

  ghost function Names(e: TypeExpr): set<string> {
    set n | n in NamedIn(e)
  }

  ghost function NamesOfFields(fields: seq<Field>): set<string> {
    if fields == [] then {} else Names(fields[0].ftype) + NamesOfFields(fields[1..])
  }

  ghost function NamesOf(d: TypeDef): set<string> {
    match d
    case RecordDef(fields) => NamesOfFields(fields)
    case AliasDef(target) => Names(target)
    case _ => {}
  }

  lemma {:induction false} RefsOfType(e: TypeExpr)
    ensures RefsIn(TypeSchema(e)) == Names(e)
  {
    match e
    case OptionOf(inner) =>
      RefsOfType(inner);
      var both, last := [TypeSchema(inner), NULL_SCHEMA], [NULL_SCHEMA];
      assert both[1..] == last && last[1..] == [];
      assert RefsIn(NULL_SCHEMA) == {};
      assert RefsInAll(last) == {};
      assert RefsInAll(both) == Names(inner);
    case ListOf(item) => RefsOfType(item);
    case MapOf(value) => RefsOfType(value);
    case _ =>
  }

  lemma {:induction false} RefsOfFields(fields: seq<Field>)
    ensures RefsInProperties(FieldProperties(fields)) == NamesOfFields(fields)
  {
    if fields != [] {
      RefsOfType(fields[0].ftype);
      RefsOfFields(fields[1..]);
      assert FieldProperties(fields)[1..] == FieldProperties(fields[1..]);
    }
  }

  lemma RefsOfDefinition(d: TypeDef)
    ensures RefsIn(DefnSchema(d)) == NamesOf(d)
  {
    match d
    case RecordDef(fields) => RefsOfFields(fields);
    case AliasDef(target) => RefsOfType(target);
    case _ =>
  }

  lemma {:induction false} FieldNamesDeclared(t: TypeTable, fields: seq<Field>)
    requires forall i :: 0 <= i < |fields| ==> RefsResolve(t, fields[i].ftype)
    ensures NamesOfFields(fields) <= t.defs.Keys
  {
    if fields != [] {
      assert RefsResolve(t, fields[0].ftype);
      FieldNamesDeclared(t, fields[1..]);
    }
  }

  lemma ParamsRefs(t: TypeTable, params: seq<Field>)
    requires ParamsOk(t, params)
    ensures RefsIn(ParamsSchema(params)) <= t.defs.Keys
  {
    RefsOfFields(params);
    FieldNamesDeclared(t, params);
  }

  lemma PartRefs(t: TypeTable, op: Operation, p: Part)
    requires OperationOk(t, op)
    ensures PartSchema(op, p).Some? ==> RefsIn(PartSchema(op, p).value) <= t.defs.Keys
  {
    match p
    case Method =>
    case Template =>
    case Body => if op.request.Some? { RefsOfType(op.request.value); }
    case _ => ParamsRefs(t, ParamsOf(op, p));
  }

  lemma {:induction false} PartsRefs(t: TypeTable, op: Operation, parts: seq<Part>)
    requires OperationOk(t, op)
    ensures RefsInProperties(PropertiesOf(op, parts)) <= t.defs.Keys
  {
    if parts != [] {
      PartRefs(t, op, parts[0]);
      PartsRefs(t, op, parts[1..]);
      var own, rest := Property(op, parts[0]), PropertiesOf(op, parts[1..]);
      assert own == [] ==> own + rest == rest;
      assert own != [] ==> (own + rest)[0] == own[0] && (own + rest)[1..] == rest;
    }
  }

  // In the index and in operation documents, which carry `$defs`, every
  // reference resolves, inside the definitions and in the document's own part.
  lemma RefsResolveWithDefs(t: TypeTable)
    requires Resolved(t)
    ensures forall n :: n in t.defs ==> RefsIn(DefsOf(t)[n]) <= DefsOf(t).Keys
    ensures forall op :: OperationOk(t, op) ==> RefsIn(OperationSchema(op)) <= DefsOf(t).Keys
  {
    forall n | n in t.defs ensures RefsIn(DefsOf(t)[n]) <= DefsOf(t).Keys {
      RefsOfDefinition(t.defs[n]);
      assert DefResolves(t, t.defs[n]);
      if t.defs[n].RecordDef? {
        FieldNamesDeclared(t, t.defs[n].fields);
      }
    }
    forall op | OperationOk(t, op) ensures RefsIn(OperationSchema(op)) <= DefsOf(t).Keys {
      PartsRefs(t, op, ORDER);
    }
  }

  ghost predicate Mentions(d: TypeDef, n: string) {
    || (d.AliasDef? && n in NamedIn(d.target))
    || (d.RecordDef? && exists i :: 0 <= i < |d.fields| && n in NamedIn(d.fields[i].ftype))
  }

  lemma {:induction false} FieldsMention(fields: seq<Field>, n: string)
    ensures n in NamesOfFields(fields) <==> exists i :: 0 <= i < |fields| && n in NamedIn(fields[i].ftype)
  {
    if fields != [] {
      FieldsMention(fields[1..], n);
      assert n in NamedIn(fields[0].ftype) <==> n in Names(fields[0].ftype);
      if i :| 0 <= i < |fields[1..]| && n in NamedIn(fields[1..][i].ftype) {
        assert n in NamedIn(fields[i + 1].ftype);
      }
      if i :| 0 < i < |fields| && n in NamedIn(fields[i].ftype) {
        assert n in NamedIn(fields[1..][i - 1].ftype);
      }
    }
  }

  // A per-type file carries no `$defs`: its references are the names its
  // definition mentions, so it can be used on its own exactly when it mentions
  // none.
  lemma PerTypeFileSelfContained(d: TypeDef)
    ensures forall n :: n in RefsIn(DefnSchema(d)) <==> Mentions(d, n)
  {
    RefsOfDefinition(d);
    forall n ensures n in RefsIn(DefnSchema(d)) <==> Mentions(d, n) {
      if d.RecordDef? {
        FieldsMention(d.fields, n);
      }
    }
  }
}

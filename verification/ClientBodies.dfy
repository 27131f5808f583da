// Which bodies a generated client writes. A Rust client writes a field with a
// default whatever its value, leaves an optional one out instead of writing
// null, and spells enum values in its own way (ridl/emit/rust.py); a TypeScript
// client may leave both kinds of field out (ridl/emit/typescript.py). To both,
// `Json` is any value.
module ClientBodies {
  import opened Json
  import opened Naming
  import opened EnumSpelling
  import opened Types
  import opened Conformance
  import opened QueuedBodies

  datatype Client = WritesDefaults | OmitsDefaults

  // ------------------------------------------------ the table of bodies

  /** A field as the Rust client serialises it. */
  function WrittenField(f: Field): Field {
    if f.hasDefault then f.(required := true, hasDefault := false)
    else if !f.required && f.ftype.OptionOf? then f.(ftype := f.ftype.inner)
    else f
  }

  function WrittenFields(fields: seq<Field>): (r: seq<Field>)
    ensures |r| == |fields|
    ensures forall i :: 0 <= i < |r| ==> r[i] == WrittenField(fields[i])
  {
    if fields == [] then [] else [WrittenField(fields[0])] + WrittenFields(fields[1..])
  }

  function WrittenVariants(variants: seq<string>): (r: seq<string>)
    ensures |r| == |variants|
    ensures forall i :: 0 <= i < |r| ==> r[i] == Spelled(variants[i])
  {
    if variants == [] then [] else [Spelled(variants[0])] + WrittenVariants(variants[1..])
  }

  function WrittenDef(d: TypeDef): TypeDef {
    match d
    case RecordDef(fields) => RecordDef(WrittenFields(fields))
    case EnumDef(variants) => EnumDef(WrittenVariants(variants))
    case _ => d
  }

  /** How a client takes scalars: `Json` is any value. */
  function AsClient(c: Checks): Reader { Reader(c.integral, c.format, true) }

  /** The types whose values, read this way, are the bodies a client writes. */
  function BodyTable(client: Client, t: TypeTable): TypeTable {
    if client.OmitsDefaults? then t
    else TypeTable(t.order, map n | n in t.defs :: WrittenDef(t.defs[n]))
  }

  lemma {:induction false} UnderlyingUnchanged(client: Client, t: TypeTable, e: TypeExpr, seen: set<string>)
    ensures Underlying(BodyTable(client, t), e, seen) == Underlying(t, e, seen)
    decreases t.defs.Keys - seen
  {
    if e.Named? && e.name !in seen && e.name in t.defs && t.defs[e.name].AliasDef? {
      UnderlyingUnchanged(client, t, t.defs[e.name].target, seen + {e.name});
    }
  }

  lemma {:induction false} StringValuedUnchanged(client: Client, t: TypeTable, e: TypeExpr, seen: set<string>)
    ensures StringValued(BodyTable(client, t), e, seen) <==> StringValued(t, e, seen)
    decreases t.defs.Keys - seen
  {
    if e.Named? && e.name !in seen && e.name in t.defs && t.defs[e.name].AliasDef? {
      StringValuedUnchanged(client, t, t.defs[e.name].target, seen + {e.name});
    }
  }

  /** The fields of the record a body type stands for, as the client writes them. */
  lemma BodyFields(client: Client, t: TypeTable, e: TypeExpr)
    requires IsRecord(t, e)
    ensures IsRecord(BodyTable(client, t), e)
    ensures var fields := t.defs[Underlying(t, e, {}).name].fields;
      BodyTable(client, t).defs[Underlying(BodyTable(client, t), e, {}).name].fields
        == if client.WritesDefaults? then WrittenFields(fields) else fields
  {
    UnderlyingUnchanged(client, t, e, {});
  }

  // ------------------------------------------------------------ promises

  /** The fields a client always writes as a string. */
  predicate Promises(client: Client, t: TypeTable, f: Field) {
    && ((f.hasDefault && client.WritesDefaults?) || (f.required && !f.hasDefault))
    && StringValued(t, f.ftype, {})
  }

  lemma PromiseOfWritten(t: TypeTable, f: Field)
    ensures PromisesString(BodyTable(WritesDefaults, t), WrittenField(f)) <==> Promises(WritesDefaults, t, f)
  {
    StringValuedUnchanged(WritesDefaults, t, f.ftype, {});
  }

  // ------------------------------------------- written bodies are values

  /** Every enum value the Rust client can write is a declared one. */
  ghost predicate EnumsSpell(t: TypeTable) {
    forall n :: n in t.defs && t.defs[n].EnumDef? ==> Spells(t.defs[n].variants)
  }

  lemma {:induction false} WrittenConforms(t: TypeTable, c: Reader, e: TypeExpr, v: Json, k: nat)
    requires EnumsSpell(t) && Fits(BodyTable(WritesDefaults, t), c, e, v, k)
    ensures Fits(t, c, e, v, k)
    decreases k, 0, e
  {
    var b := BodyTable(WritesDefaults, t);
    match e
    case OptionOf(inner) =>
      if !v.Null? {
        WrittenConforms(t, c, inner, v, k);
      }
    case ListOf(item) =>
      forall i | 0 <= i < |v.items| ensures Fits(t, c, item, v.items[i], k) {
        WrittenConforms(t, c, item, v.items[i], k);
      }
    case MapOf(value) =>
      forall i | 0 <= i < |v.members| ensures Fits(t, c, value, v.members[i].1, k) {
        WrittenConforms(t, c, value, v.members[i].1, k);
      }
    case Named(n) =>
      match t.defs[n] {
        case RecordDef(fields) => WrittenRecord(t, c, fields, v, k - 1);
        case AliasDef(target) => WrittenConforms(t, c, target, v, k - 1);
        case EnumDef(variants) =>
          var i :| 0 <= i < |variants| && v.s == WrittenVariants(variants)[i];
          assert Spells(variants);
        case ScalarDef(_) =>
      }
    case Base(_) =>
  }

  lemma {:induction false} WrittenRecord(t: TypeTable, c: Reader, fields: seq<Field>, v: Json, k: nat)
    requires EnumsSpell(t) && FitsDef(BodyTable(WritesDefaults, t), c, RecordDef(WrittenFields(fields)), v, k)
    ensures FitsDef(t, c, RecordDef(fields), v, k)
    decreases k, 1
  {
    var b, written := BodyTable(WritesDefaults, t), WrittenFields(fields);
    forall i | 0 <= i < |fields| && fields[i].required && !fields[i].hasDefault
      ensures HasMember(v, fields[i].wire)
    {
      assert written[i] == fields[i];
    }
    forall j | 0 <= j < |v.members| ensures FitsField(t, c, fields, v.members[j], k) {
      assert FitsField(b, c, written, v.members[j], k);
      var i :| 0 <= i < |written| && written[i].wire == v.members[j].0
        && Fits(b, c, written[i].ftype, v.members[j].1, k);
      WrittenConforms(t, c, written[i].ftype, v.members[j].1, k);
      assert Fits(t, c, fields[i].ftype, v.members[j].1, k);
    }
  }

  /** Everything a Rust client writes for any type, its `Json` parts being
      objects, is a value of that type. */
  ghost predicate AllWrittenConform(t: TypeTable, c: Checks) {
    forall e, v :: Conforms(BodyTable(WritesDefaults, t), c, e, v) ==> Conforms(t, c, e, v)
  }

  lemma MisspelledIsNoValue(t: TypeTable, c: Checks, n: string, i: nat)
    requires n in t.defs && t.defs[n].EnumDef? && i < |t.defs[n].variants|
    requires Spelled(t.defs[n].variants[i]) !in t.defs[n].variants
    ensures var v := Str(Spelled(t.defs[n].variants[i]));
      Conforms(BodyTable(WritesDefaults, t), c, Named(n), v) && !Conforms(t, c, Named(n), v)
  {
    var variants := t.defs[n].variants;
    assert WrittenVariants(variants)[i] == Spelled(variants[i]);
    var v := Str(Spelled(variants[i]));
    assert Fits(BodyTable(WritesDefaults, t), c, Named(n), v, 1);
    forall k: nat ensures !Fits(t, c, Named(n), v, k) {
      if k > 0 {
        assert !FitsDef(t, c, t.defs[n], v, k - 1);
      }
    }
  }

  // Where the emitted Rust enums compile, what the client writes has the
  // declared types, defaults and left-out options included, exactly if every
  // enum variant comes back unchanged.
  lemma WrittenConformsIff(t: TypeTable, c: Checks)
    requires forall n :: n in t.defs && t.defs[n].EnumDef? ==> Compiles(t.defs[n].variants)
    ensures AllWrittenConform(t, c) <==> forall n, i ::
      n in t.defs && t.defs[n].EnumDef? && 0 <= i < |t.defs[n].variants|
      ==> ComesBack(t.defs[n].variants[i])
  {
    forall n | n in t.defs && t.defs[n].EnumDef?
      ensures Spells(t.defs[n].variants)
        <==> forall i :: 0 <= i < |t.defs[n].variants| ==> ComesBack(t.defs[n].variants[i])
    {
      SpellsIffAllComeBack(t.defs[n].variants);
    }
    if EnumsSpell(t) {
      forall e, v | Conforms(BodyTable(WritesDefaults, t), c, e, v) ensures Conforms(t, c, e, v) {
        var k: nat :| Fits(BodyTable(WritesDefaults, t), c, e, v, k);
        WrittenConforms(t, c, e, v, k);
      }
    } else {
      var n :| n in t.defs && t.defs[n].EnumDef? && !Spells(t.defs[n].variants);
      var i :| 0 <= i < |t.defs[n].variants| && Spelled(t.defs[n].variants[i]) !in t.defs[n].variants;
      MisspelledIsNoValue(t, c, n, i);
    }
  }
}

// What JSON values belong to a route-map type, independently of any schema.
module Conformance {
  import opened Basics
  import opened Json
  import opened Types

  // What is left open about scalars: whether a number token is an integer,
  // whether a value satisfies a named format (a library that treats `format`
  // as an annotation answers true), and whether `Json` stands for any value.
  datatype Reader = Reader(integral: string -> bool, format: (string, Json) -> bool, anyJson: bool)

  // A schema library: to the schemas `Json` is an object.
  type Checks = c: Reader | !c.anyJson witness Reader(token => true, (name, v) => true, false)

  predicate BuiltinAdmits(c: Reader, b: Builtin, v: Json) {
    match b
    case String => v.Str?
    case Bool => v.Bool?
    case I32 => v.Num? && c.integral(v.token) && c.format("int32", v)
    case I64 => v.Num? && c.integral(v.token) && c.format("int64", v)
    case F64 => v.Num? && c.format("double", v)
    case Uuid => v.Str? && c.format("uuid", v)
    case DateTime => v.Str? && c.format("date-time", v)
    case Decimal => v.Str? && c.format("decimal", v)
    case Json => v.Obj? || c.anyJson
  }

  ghost predicate HasMember(v: Json, name: string)
    requires v.Obj?
  {
    exists i :: 0 <= i < |v.members| && v.members[i].0 == name
  }

  /** `v` is shown to belong to `e` within `k` unfoldings of named types. */
  ghost predicate Fits(t: TypeTable, c: Reader, e: TypeExpr, v: Json, k: nat)
    decreases k, e
  {
    match e
    case OptionOf(inner) => v.Null? || Fits(t, c, inner, v, k)
    case ListOf(item) => v.Arr? && forall i :: 0 <= i < |v.items| ==> Fits(t, c, item, v.items[i], k)
    case MapOf(value) => v.Obj? && forall i :: 0 <= i < |v.members| ==> Fits(t, c, value, v.members[i].1, k)
    case Base(b) => BuiltinAdmits(c, b, v)
    case Named(n) => n in t.defs && k > 0 && FitsDef(t, c, t.defs[n], v, k - 1)
  }

  ghost predicate FitsDef(t: TypeTable, c: Reader, d: TypeDef, v: Json, k: nat)
    decreases k, d, 1
  {
    match d
    case AliasDef(target) => Fits(t, c, target, v, k)
    case EnumDef(variants) => v.Str? && v.s in variants
    case ScalarDef(base) => BuiltinAdmits(c, base, v)
    case RecordDef(fields) =>
      && v.Obj?
      && (forall i :: 0 <= i < |fields| && fields[i].required && !fields[i].hasDefault ==>
            HasMember(v, fields[i].wire))
      && (forall j :: 0 <= j < |v.members| ==> FitsField(t, c, fields, v.members[j], k))
  }

  // A member is allowed when some field declares its name and its type.
  ghost predicate FitsField(t: TypeTable, c: Reader, fields: seq<Field>, m: (string, Json), k: nat)
    decreases k, fields, 0
  {
    exists i :: 0 <= i < |fields| && fields[i].wire == m.0 && Fits(t, c, fields[i].ftype, m.1, k)
  }

  /** The least relation closed under the rules of `Fits`. */
  ghost predicate Conforms(t: TypeTable, c: Reader, e: TypeExpr, v: Json) {
    exists k: nat :: Fits(t, c, e, v, k)
  }

  lemma {:induction false} FitsMonotone(t: TypeTable, c: Reader, e: TypeExpr, v: Json, k: nat, more: nat)
    requires Fits(t, c, e, v, k) && k <= more
    ensures Fits(t, c, e, v, more)
    decreases k, e
  {
    match e
    case OptionOf(inner) =>
      if !v.Null? {
        FitsMonotone(t, c, inner, v, k, more);
      }
    case ListOf(item) =>
      forall i | 0 <= i < |v.items| ensures Fits(t, c, item, v.items[i], more) {
        FitsMonotone(t, c, item, v.items[i], k, more);
      }
    case MapOf(value) =>
      forall i | 0 <= i < |v.members| ensures Fits(t, c, value, v.members[i].1, more) {
        FitsMonotone(t, c, value, v.members[i].1, k, more);
      }
    case Named(n) =>
      FitsDefMonotone(t, c, t.defs[n], v, k - 1, more - 1);
    case Base(_) =>
  }

  lemma {:induction false} FitsDefMonotone(t: TypeTable, c: Reader, d: TypeDef, v: Json, k: nat, more: nat)
    requires FitsDef(t, c, d, v, k) && k <= more
    ensures FitsDef(t, c, d, v, more)
    decreases k, d
  {
    match d
    case AliasDef(target) => FitsMonotone(t, c, target, v, k, more);
    case RecordDef(fields) =>
      forall j | 0 <= j < |v.members| ensures FitsField(t, c, fields, v.members[j], more) {
        assert FitsField(t, c, fields, v.members[j], k);
        var i :| 0 <= i < |fields| && fields[i].wire == v.members[j].0 && Fits(t, c, fields[i].ftype, v.members[j].1, k);
        FitsMonotone(t, c, fields[i].ftype, v.members[j].1, k, more);
      }
    case _ =>
  }
}

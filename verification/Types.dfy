// The type layer of a route map: expressions, definitions and the table that
// names them (ridl/model.py).
module Types {
  import opened Basics

  datatype Builtin = String | Bool | I32 | I64 | F64 | Uuid | DateTime | Decimal | Json

  datatype JsonType = TNull | TBoolean | TString | TNumber | TInteger | TArray | TObject

  // A type name is looked up among the builtins before anything else, so an
  // expression carries the outcome: a builtin, or a name for the type table.
  datatype TypeExpr =
    | Base(builtin: Builtin)
    | Named(name: string)
    | ListOf(item: TypeExpr)
    | MapOf(value: TypeExpr)
    | OptionOf(inner: TypeExpr)

  datatype Field = Field(wire: string, ftype: TypeExpr, required: bool, hasDefault: bool)

  datatype TypeDef =
    | RecordDef(fields: seq<Field>)
    | EnumDef(variants: seq<string>)
    | ScalarDef(base: Builtin)
    | AliasDef(target: TypeExpr)

  // A Python dict keeps insertion order: `order` lists the keys of `defs`.
  datatype TypeTable = TypeTable(order: seq<string>, defs: map<string, TypeDef>) {
    ghost predicate Valid() {
      && Distinct(order)
      && (forall n :: n in order <==> n in defs)
    }
  }

  /** The `BUILTINS` table: JSON type and format of every builtin. */
  function JsonTypeOf(b: Builtin): JsonType {
    match b
    case Bool => TBoolean
    case I32 => TInteger
    case I64 => TInteger
    case F64 => TNumber
    case Json => TObject
    case _ => TString
  }

  function FormatOf(b: Builtin): Option<string> {
    match b
    case I32 => Some("int32")
    case I64 => Some("int64")
    case F64 => Some("double")
    case Uuid => Some("uuid")
    case DateTime => Some("date-time")
    case Decimal => Some("decimal")
    case _ => None
  }

  /** Every table name an expression mentions, in order (`_named_in`). */
  function NamedIn(e: TypeExpr): seq<string> {
    match e
    case Base(_) => []
    case Named(n) => [n]
    case ListOf(i) => NamedIn(i)
    case MapOf(v) => NamedIn(v)
    case OptionOf(i) => NamedIn(i)
  }

  predicate HasNestedOption(e: TypeExpr) {
    match e
    case Base(_) => false
    case Named(_) => false
    case ListOf(i) => HasNestedOption(i)
    case MapOf(v) => HasNestedOption(v)
    case OptionOf(i) => i.OptionOf? || HasNestedOption(i)
  }

  /** What `_validate_refs` accepts: known names, no option of an option. */
  predicate RefsResolve(t: TypeTable, e: TypeExpr) {
    && (forall i :: 0 <= i < |NamedIn(e)| ==> NamedIn(e)[i] in t.defs)
    && !HasNestedOption(e)
  }

  ghost predicate DefResolves(t: TypeTable, d: TypeDef) {
    match d
    case RecordDef(fields) =>
      && (forall i :: 0 <= i < |fields| ==> RefsResolve(t, fields[i].ftype))
      && (forall i, j :: 0 <= i < j < |fields| ==> fields[i].wire != fields[j].wire)
      && (forall i :: 0 <= i < |fields| ==> !(fields[i].hasDefault && fields[i].required))
    case EnumDef(variants) => variants != []
    case ScalarDef(_) => true
    case AliasDef(target) => RefsResolve(t, target)
  }

  // A table that passes the per-definition rules of `_validate_types`.
  ghost predicate Resolved(t: TypeTable) {
    && t.Valid()
    && (forall n :: n in t.defs ==> DefResolves(t, t.defs[n]))
  }

  /** `RouteMap.underlying`: follow aliases, stopping at a name already seen. */
  function Underlying(t: TypeTable, e: TypeExpr, seen: set<string>): TypeExpr
    decreases t.defs.Keys - seen
  {
    if e.Named? && e.name !in seen && e.name in t.defs && t.defs[e.name].AliasDef? then
      Underlying(t, t.defs[e.name].target, seen + {e.name})
    else e
  }

  /** `RouteMap.is_record`. */
  predicate IsRecord(t: TypeTable, e: TypeExpr) {
    var u := Underlying(t, e, {});
    u.Named? && u.name in t.defs && t.defs[u.name].RecordDef?
  }
}

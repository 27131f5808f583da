// Which queued operations the validator accepts (`_validate_delivery` and
// `_validate_record_id_source` in ridl/validate.py).
module Delivery {
  import opened Basics
  import opened Types
  import opened Routes
  import T = PathTemplates

  const DIRECT := "direct"
  const QUEUED := "opto_sync_queued"
  const UNARY := "unary"
  const UPSERT := "upsert"
  const DELETE := "delete"

  predicate Mutating(method_: string) {
    method_ == "POST" || method_ == "PUT" || method_ == "PATCH" || method_ == "DELETE"
  }

  predicate ScopeStart(c: char) { 'A' <= c <= 'Z' || 'a' <= c <= 'z' || c == '_' }

  predicate ScopeId(s: string) {
    && 1 <= |s| <= 63
    && ScopeStart(s[0])
    && forall i :: 0 <= i < |s| ==> ScopeStart(s[i]) || '0' <= s[i] <= '9'
  }

  /** `OPTO_TABLE_RE.match`: Python's `$` also matches before a final newline. */
  predicate TableName(s: string) {
    ScopeId(s) || (s != "" && s[|s| - 1] == '\n' && ScopeId(s[..|s| - 1]))
  }

  // `record_id_from`, taken apart.
  datatype Source =
    | Minted
    | FromPath(name: string)
    | FromField(name: string)
    | Unscoped
    | OtherScope(scope: string)

  function SourceOf(src: string): Source {
    if src == "uuid" then Minted
    else
      match T.Find(src, '.')
      case None => Unscoped
      case Some(dot) =>
        var scope, name := src[..dot], src[dot + 1..];
        if scope == "path" then FromPath(name)
        else if scope == "request" then FromField(name)
        else OtherScope(scope)
  }

  lemma FirstDot(scope: string, name: string)
    requires '.' !in scope
    ensures T.Find(scope + ("." + name), '.') == Some(|scope|)
    ensures (scope + ("." + name))[..|scope|] == scope && (scope + ("." + name))[|scope| + 1..] == name
  {
    T.FindIs(scope + ("." + name), '.', |scope|);
  }

  // A record id comes from a path parameter, a request field or neither, as
  // the setting is spelled.
  lemma SourceSpelled(src: string, name: string)
    ensures SourceOf(src) == Minted <==> src == "uuid"
    ensures SourceOf(src) == FromPath(name) <==> src == "path" + ("." + name)
    ensures SourceOf(src) == FromField(name) <==> src == "request" + ("." + name)
    ensures SourceOf(src) == Unscoped <==> src != "uuid" && '.' !in src
  {
    FirstDot("path", name);
    FirstDot("request", name);
    if T.Find(src, '.').Some? {
      var dot := T.Find(src, '.').value;
      assert src == src[..dot] + ("." + src[dot + 1..]);
    }
  }

  predicate WordChar(c: char) {
    c == '_' || 'A' <= c <= 'Z' || 'a' <= c <= 'z' || '0' <= c <= '9'
  }

  predicate Word(core: string) {
    && 1 <= |core| <= 63 && !('0' <= core[0] <= '9')
    && forall i :: 0 <= i < |core| ==> WordChar(core[i])
  }

  lemma ScopeIdIsWord(s: string)
    ensures ScopeId(s) <==> Word(s)
  {}

  // A table name is a word of at most 63 characters that no digit begins,
  // possibly with a newline behind it.
  lemma TableSpelled(s: string)
    ensures TableName(s) <==> exists core :: (s == core || s == core + "\n") && Word(core)
  {
    ScopeIdIsWord(s);
    if s != "" && s[|s| - 1] == '\n' {
      var core := s[..|s| - 1];
      ScopeIdIsWord(core);
      assert s == core + "\n";
    }
    if core :| (s == core || s == core + "\n") && Word(core) {
      ScopeIdIsWord(core);
      if s == core + "\n" {
        assert s[..|s| - 1] == core;
      }
    }
  }

  datatype DeliveryError =
    | UnknownDelivery
    | NeedsClient
    | SettingsWithoutQueue
    | NotUnary
    | NotMutating
    | MissingBlock
    | BadTable
    | BadOperation
    | UpsertWithoutBody
    | UpsertBodyNotRecord
    | DeleteWithBody
    | SourceMissing
    | SourceUnscoped
    | NoPathParam(name: string)
    | FieldWithoutBody
    | BodyNotRecord
    | NoField(name: string)
    | UnknownScope(scope: string)

  /** The record a body type stands for. */
  function RecordFields(t: TypeTable, e: TypeExpr): Option<seq<Field>> {
    if IsRecord(t, e) then Some(t.defs[Underlying(t, e, {}).name].fields) else None
  }

  ghost predicate HasField(fields: seq<Field>, name: string) {
    exists i :: 0 <= i < |fields| && fields[i].wire == name
  }

  /** When each complaint is due. */
  ghost predicate DeliveryFault(t: TypeTable, r: Route, e: DeliveryError) {
    if r.delivery != DIRECT && r.delivery != QUEUED then e == UnknownDelivery
    else if r.delivery == DIRECT then e == SettingsWithoutQueue && r.optoSync.Some?
    else
      || (e == NeedsClient && !r.client)
      || (e == NotUnary && r.stream != UNARY)
      || (e == NotMutating && exists i :: 0 <= i < |r.methods| && !Mutating(r.methods[i]))
      || (e == MissingBlock && r.optoSync.None?)
      || (r.optoSync.Some? && BlockFault(t, r, r.optoSync.value, e))
  }

  ghost predicate BlockFault(t: TypeTable, r: Route, o: OptoSync, e: DeliveryError) {
    match e
    case BadTable => !TableName(o.table)
    case BadOperation => o.operation != UPSERT && o.operation != DELETE
    case UpsertWithoutBody => o.operation == UPSERT && r.request.None?
    case UpsertBodyNotRecord => o.operation == UPSERT && r.request.Some? && !IsRecord(t, r.request.value)
    case DeleteWithBody => o.operation != UPSERT && r.request.Some?
    case SourceMissing => o.recordIdFrom == ""
    case _ => o.recordIdFrom != "" && SourceFault(t, r, SourceOf(o.recordIdFrom), e)
  }

  ghost predicate SourceFault(t: TypeTable, r: Route, s: Source, e: DeliveryError) {
    match e
    case SourceUnscoped => s == Unscoped
    case NoPathParam(name) => s == FromPath(name) && !r.Declares(name)
    case FieldWithoutBody => s.FromField? && r.request.None?
    case BodyNotRecord => s.FromField? && r.request.Some? && !IsRecord(t, r.request.value)
    case NoField(name) =>
      s == FromField(name) && r.request.Some? && IsRecord(t, r.request.value)
      && !HasField(RecordFields(t, r.request.value).value, name)
    case UnknownScope(scope) => s == OtherScope(scope)
    case _ => false
  }

  method FindField(fields: seq<Field>, name: string) returns (found: bool)
    ensures found <==> HasField(fields, name)
  {
    var i := 0;
    while i < |fields|
      invariant 0 <= i <= |fields|
      invariant forall j :: 0 <= j < i ==> fields[j].wire != name
    {
      if fields[i].wire == name {
        return true;
      }
      i := i + 1;
    }
    found := false;
  }

  /** `_validate_record_id_source`. */
  method ValidateRecordIdSource(t: TypeTable, r: Route, src: string) returns (errors: set<DeliveryError>)
    ensures forall e :: e in errors <==> SourceFault(t, r, SourceOf(src), e)
  {
    match SourceOf(src) {
      case Minted =>
        errors := {};
      case Unscoped =>
        errors := {SourceUnscoped};
      case FromPath(name) =>
        var found := FindParam(r, name);
        errors := if found then {} else {NoPathParam(name)};
      case FromField(name) =>
        if r.request.None? {
          return {FieldWithoutBody};
        }
        var fields := RecordFields(t, r.request.value);
        if fields.None? {
          return {BodyNotRecord};
        }
        var found := FindField(fields.value, name);
        errors := if found then {} else {NoField(name)};
      case OtherScope(scope) =>
        errors := {UnknownScope(scope)};
    }
  }

  method ValidateBlock(t: TypeTable, r: Route, o: OptoSync) returns (errors: set<DeliveryError>)
    ensures forall e :: e in errors <==> BlockFault(t, r, o, e)
  {
    errors := {};
    if !TableName(o.table) {
      errors := errors + {BadTable};
    }
    if o.operation != UPSERT && o.operation != DELETE {
      errors := errors + {BadOperation};
    }
    if o.operation == UPSERT {
      if r.request.None? {
        errors := errors + {UpsertWithoutBody};
      } else if !IsRecord(t, r.request.value) {
        errors := errors + {UpsertBodyNotRecord};
      }
    } else if r.request.Some? {
      errors := errors + {DeleteWithBody};
    }
    if o.recordIdFrom == "" {
      errors := errors + {SourceMissing};
    } else {
      var more := ValidateRecordIdSource(t, r, o.recordIdFrom);
      errors := errors + more;
    }
  }

  method AllMutating(methods: seq<string>) returns (all: bool)
    ensures all <==> forall i :: 0 <= i < |methods| ==> Mutating(methods[i])
  {
    var i := 0;
    while i < |methods|
      invariant 0 <= i <= |methods|
      invariant forall j :: 0 <= j < i ==> Mutating(methods[j])
    {
      if !Mutating(methods[i]) {
        return false;
      }
      i := i + 1;
    }
    all := true;
  }

  /** `_validate_delivery`; of each complaint, that it is made. */
  method ValidateDelivery(t: TypeTable, r: Route) returns (errors: set<DeliveryError>)
    ensures forall e :: e in errors <==> DeliveryFault(t, r, e)
  {
    if r.delivery != DIRECT && r.delivery != QUEUED {
      return {UnknownDelivery};
    }
    errors := {};
    if r.delivery == QUEUED && !r.client {
      errors := errors + {NeedsClient};
    }
    if r.delivery != QUEUED {
      if r.optoSync.Some? {
        errors := errors + {SettingsWithoutQueue};
      }
      return;
    }
    if r.stream != UNARY {
      errors := errors + {NotUnary};
    }
    var mutating := AllMutating(r.methods);
    if !mutating {
      errors := errors + {NotMutating};
    }
    if r.optoSync.None? {
      errors := errors + {MissingBlock};
      return;
    }
    var more := ValidateBlock(t, r, r.optoSync.value);
    errors := errors + more;
  }

  ghost predicate DeliveryAccepted(t: TypeTable, r: Route) {
    forall e: DeliveryError :: !DeliveryFault(t, r, e)
  }

  lemma SourceAccepted(t: TypeTable, r: Route, s: Source)
    requires forall e: DeliveryError :: !SourceFault(t, r, s, e)
    ensures SourceOk(t, r, s)
  {
    assert !SourceFault(t, r, s, SourceUnscoped);
    assert s.OtherScope? ==> !SourceFault(t, r, s, UnknownScope(s.scope));
    match s
    case FromPath(name) => assert !SourceFault(t, r, s, NoPathParam(name));
    case FromField(name) =>
      assert !SourceFault(t, r, s, FieldWithoutBody) && !SourceFault(t, r, s, BodyNotRecord);
      assert !SourceFault(t, r, s, NoField(name));
    case _ =>
  }

  ghost predicate SourceOk(t: TypeTable, r: Route, s: Source) {
    && !s.Unscoped? && !s.OtherScope?
    && (s.FromPath? ==> r.Declares(s.name))
    && (s.FromField? ==>
          r.request.Some? && IsRecord(t, r.request.value) && HasField(RecordFields(t, r.request.value).value, s.name))
  }

  ghost predicate BlockOk(t: TypeTable, r: Route, o: OptoSync) {
    && TableName(o.table)
    && (o.operation == UPSERT || o.operation == DELETE)
    && (o.operation == UPSERT <==> r.request.Some?)
    && (r.request.Some? ==> IsRecord(t, r.request.value))
  }

  lemma BlockAccepted(t: TypeTable, r: Route, o: OptoSync)
    requires forall e: DeliveryError :: !BlockFault(t, r, o, e)
    ensures BlockOk(t, r, o) && SourceOk(t, r, SourceOf(o.recordIdFrom))
  {
    assert !BlockFault(t, r, o, BadTable) && !BlockFault(t, r, o, BadOperation);
    assert !BlockFault(t, r, o, DeleteWithBody) && !BlockFault(t, r, o, UpsertWithoutBody);
    assert !BlockFault(t, r, o, UpsertBodyNotRecord) && !BlockFault(t, r, o, SourceMissing);
    var s := SourceOf(o.recordIdFrom);
    forall e: DeliveryError ensures !SourceFault(t, r, s, e) {
      assert !BlockFault(t, r, o, e);
    }
    SourceAccepted(t, r, s);
  }

  // What an accepted queued route is known to look like.
  lemma AcceptedQueued(t: TypeTable, r: Route)
    requires DeliveryAccepted(t, r) && r.delivery == QUEUED
    ensures r.optoSync.Some?
    ensures BlockOk(t, r, r.optoSync.value)
    ensures SourceOk(t, r, SourceOf(r.optoSync.value.recordIdFrom))
  {
    assert !DeliveryFault(t, r, MissingBlock);
    var o := r.optoSync.value;
    assert DIRECT != QUEUED;
    forall e: DeliveryError ensures !BlockFault(t, r, o, e) {
      assert !DeliveryFault(t, r, e);
    }
    BlockAccepted(t, r, o);
  }
}

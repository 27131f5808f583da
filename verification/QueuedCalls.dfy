// What the static delivery rules guarantee at run time: the requests generated
// clients build for validated queued routes (ridl/emit/rust.py), against the
// transport that queues them.
module QueuedCalls {
  import opened Basics
  import opened Json
  import opened JsonParser
  import opened JsonRoundTrip
  import opened Types
  import opened Conformance
  import opened Routes
  import opened QueuedBodies
  import opened ClientBodies
  import opened EmittedNames
  import D = Delivery
  import O = OptoSyncTransport
  import M = MintedIds
  import T = PathTemplates
  import R = PathRoundTrip

  // ------------------------------------------------- generated requests

  /** The path of a call; a route without parameters emits its template. */
  function CallPath(r: Route, values: T.Values): string {
    if r.pathParams == [] then r.path else T.Path(r.path, values)
  }

  /** The record-id source a validated route is emitted with. */
  function EmittedSource(s: D.Source): O.RecordIdSource
    requires !s.Unscoped? && !s.OtherScope?
  {
    match s
    case Minted => O.MintedId
    case FromPath(name) => O.FromPathParam(name)
    case FromField(name) => O.FromRequestField(name)
  }

  function BodyText(body: Option<Json>): Option<string> {
    if body.Some? then Some(Print(body.value)) else None
  }

  ghost predicate Validated(t: TypeTable, r: Route) {
    && Resolved(t)
    && r.Valid()
    && PathAccepted(t, r)
    && D.DeliveryAccepted(t, r)
    && r.delivery == D.QUEUED
  }

  function SourceText(r: Route): D.Source {
    if r.optoSync.Some? then D.SourceOf(r.optoSync.value.recordIdFrom) else D.Unscoped
  }

  /** The request a generated client sends for a queued route. */
  function RequestOf(r: Route, values: T.Values, body: Option<Json>): O.Request
    requires r.optoSync.Some? && !SourceText(r).Unscoped? && !SourceText(r).OtherScope?
  {
    var o := r.optoSync.value;
    O.Request(r.key, CallPath(r, values), r.path, BodyText(body), true,
      Some(O.Binding(o.table, o.operation, EmittedSource(SourceText(r)))))
  }

  /** A body of the request type in this table, not nested deeper than the JSON
      parser reads back. */
  ghost predicate BodyIn(b: TypeTable, c: Reader, r: Route, depth: nat, body: Option<Json>) {
    && (body.Some? <==> r.request.Some?)
    && (body.Some? ==>
          WellFormed(body.value) && Depth(body.value) <= depth && Conforms(b, c, r.request.value, body.value))
  }

  /** A body that a client of this kind writes. */
  ghost predicate Sendable(client: Client, t: TypeTable, c: Checks, r: Route, depth: nat, body: Option<Json>) {
    BodyIn(BodyTable(client, t), AsClient(c), r, depth, body)
  }

  ghost function PlanFor(r: Route, values: T.Values, body: Option<Json>, depth: nat): O.Plan {
    if r.optoSync.Some? && !SourceText(r).Unscoped? && !SourceText(r).OtherScope? then
      O.PlanOf(RequestOf(r, values, body), depth)
    else O.GoDirect
  }

  // -------------------------------------------------------- the condition

  ghost predicate SomePromise(client: Client, t: TypeTable, fields: seq<Field>, name: string) {
    exists i :: 0 <= i < |fields| && fields[i].wire == name && Promises(client, t, fields[i])
  }

  /** What a route needs beyond validation: a minted id, a parameter that is
      aligned with a whole path segment, or a field that the client always
      writes and that is always a string. */
  ghost predicate Ready(client: Client, t: TypeTable, r: Route) {
    match SourceText(r)
    case Minted => true
    case FromPath(name) => R.Aligned(r.path, name)
    case FromField(name) =>
      r.request.Some? && IsRecord(t, r.request.value)
      && SomePromise(client, t, D.RecordFields(t, r.request.value).value, name)
    case _ => false
  }

  /** The record id a ready call is for. */
  function IdOf(r: Route, values: T.Values, body: Option<Json>): string {
    match SourceText(r)
    case Minted => M.MintId(r.key, CallPath(r, values), BodyText(body))
    case FromPath(name) => values(name)
    case FromField(name) => if body.Some? then StringMember(body.value, name) else ""
    case _ => ""
  }

  function StringMember(v: Json, name: string): string {
    if !v.Obj? then "" else StringOf(Get(v.members, name))
  }

  function StringOf(m: Option<Json>): string {
    if m.Some? && m.value.Str? then m.value.s else ""
  }

  /** The one queue operation a call is worth: an upsert carries the body. */
  function OpOf(o: OptoSync, id: string, body: Option<Json>): O.QueueOp {
    if o.operation == D.DELETE then O.Delete(o.table, id)
    else O.Upsert(o.table, id, if body.Some? then Print(body.value) else "")
  }

  // -------------------------------------------------------------- pieces

  lemma BodyIsObject(b: TypeTable, c: Reader, r: Route, depth: nat, body: Option<Json>)
    requires BodyIn(b, c, r, depth, body) && body.Some? && IsRecord(b, r.request.value)
    ensures body.value.Obj?
    ensures Parse(Print(body.value), depth) == Some(body.value)
  {
    var k := RecordBody(b, c, r.request.value, body.value);
    ParsePrint(body.value, depth);
  }

  lemma PlanGivenId(b: TypeTable, c: Reader, r: Route, depth: nat, body: Option<Json>, id: string, s: O.RecordIdSource)
    requires BodyIn(b, c, r, depth, body) && r.optoSync.Some? && D.BlockOk(b, r, r.optoSync.value)
    ensures var o := r.optoSync.value;
      O.PlanQueued(O.Binding(o.table, o.operation, s), id, BodyText(body), depth) == O.Enqueue(OpOf(o, id, body))
  {
    assert D.UPSERT != D.DELETE;
    if body.Some? {
      BodyIsObject(b, c, r, depth, body);
    }
  }

  lemma FieldIdFound(v: Json, name: string, depth: nat)
    requires v.Obj? && Parse(Print(v), depth) == Some(v)
    ensures O.StringField(Print(v), name, depth)
      == if Get(v.members, name).Some? && Get(v.members, name).value.Str?
         then Some(StringMember(v, name)) else None
  {}

  // A declared parameter means the call's path is the filled-in template.
  lemma PathIsBuilt(t: TypeTable, r: Route, values: T.Values, name: string)
    requires PathAccepted(t, r) && r.Declares(name)
    ensures CallPath(r, values) == T.Path(r.path, values) && '}' !in name
  {
    AcceptedNames(t, r, name);
  }

  // --------------------------------------------------------- main results

  // What the lemmas below use of validation.
  ghost predicate Emittable(t: TypeTable, r: Route) {
    r.optoSync.Some? && D.BlockOk(t, r, r.optoSync.value) && D.SourceOk(t, r, SourceText(r))
  }

  lemma ValidatedEmittable(t: TypeTable, r: Route)
    requires Validated(t, r)
    ensures Emittable(t, r)
  {
    D.AcceptedQueued(t, r);
  }

  // The table of bodies declares the same records with the same wire names.
  lemma EmittableForBodies(client: Client, t: TypeTable, r: Route)
    requires Emittable(t, r)
    ensures Emittable(BodyTable(client, t), r)
  {
    if r.request.Some? {
      BodyFields(client, t, r.request.value);
      var s := SourceText(r);
      if s.FromField? {
        SameWires(client, t, r.request.value, s.name);
      }
    }
  }

  function AsWritten(client: Client, fields: seq<Field>): (r: seq<Field>)
    ensures |r| == |fields| && forall i :: 0 <= i < |r| ==> r[i].wire == fields[i].wire
  {
    if client.WritesDefaults? then WrittenFields(fields) else fields
  }

  lemma FieldsAsWritten(client: Client, t: TypeTable, e: TypeExpr)
    requires IsRecord(t, e)
    ensures D.RecordFields(BodyTable(client, t), e) == Some(AsWritten(client, D.RecordFields(t, e).value))
  {
    BodyFields(client, t, e);
  }

  lemma SameWires(client: Client, t: TypeTable, e: TypeExpr, name: string)
    requires IsRecord(t, e) && D.HasField(D.RecordFields(t, e).value, name)
    ensures var b := BodyTable(client, t); IsRecord(b, e) && D.HasField(D.RecordFields(b, e).value, name)
  {
    FieldsAsWritten(client, t, e);
    var fields := D.RecordFields(t, e).value;
    var i :| 0 <= i < |fields| && fields[i].wire == name;
    assert AsWritten(client, fields)[i].wire == name;
  }

  lemma PromiseAsWritten(client: Client, t: TypeTable, fields: seq<Field>, i: nat)
    requires i < |fields|
    ensures PromisesString(BodyTable(client, t), AsWritten(client, fields)[i]) <==> Promises(client, t, fields[i])
  {
    if client.WritesDefaults? {
      PromiseOfWritten(t, fields[i]);
    }
  }

  lemma RecordWires(t: TypeTable, e: TypeExpr)
    requires Resolved(t) && IsRecord(t, e)
    ensures DistinctWires(D.RecordFields(t, e).value)
  {
    assert DefResolves(t, t.defs[Underlying(t, e, {}).name]);
  }

  // The field a record id comes from, as the client writes it.
  lemma SourceField(client: Client, t: TypeTable, e: TypeExpr, name: string) returns (i: nat)
    requires Resolved(t) && IsRecord(t, e) && D.HasField(D.RecordFields(t, e).value, name)
    ensures var b := BodyTable(client, t);
      && IsRecord(b, e)
      && var fields := D.RecordFields(b, e).value;
      && DistinctWires(fields) && i < |fields| && fields[i].wire == name
      && (PromisesString(b, fields[i]) <==> SomePromise(client, t, D.RecordFields(t, e).value, name))
  {
    FieldsAsWritten(client, t, e);
    RecordWires(t, e);
    var fields := D.RecordFields(t, e).value;
    i :| 0 <= i < |fields| && fields[i].wire == name;
    PromiseAsWritten(client, t, fields, i);
    assert forall j :: 0 <= j < |fields| && fields[j].wire == name ==> j == i;
  }

  function IdFor(r: Route, values: T.Values, body: Option<Json>, depth: nat): Result<string, O.Refusal>
    requires r.optoSync.Some? && !SourceText(r).Unscoped? && !SourceText(r).OtherScope?
  {
    O.RecordId(RequestOf(r, values, body), EmittedSource(SourceText(r)), depth)
  }

  // A call's plan follows from its record id.
  lemma PlanFollowsId(b: TypeTable, c: Reader, r: Route, values: T.Values, body: Option<Json>, depth: nat)
    requires Emittable(b, r) && BodyIn(b, c, r, depth, body)
    ensures var id := IdFor(r, values, body, depth);
      PlanFor(r, values, body, depth)
        == if id.Err? then O.Refuse(id.error) else O.Enqueue(OpOf(r.optoSync.value, id.value, body))
  {
    var id := IdFor(r, values, body, depth);
    if id.Ok? {
      PlanGivenId(b, c, r, depth, body, id.value, EmittedSource(SourceText(r)));
    }
  }

  lemma PathIdRecovered(t: TypeTable, r: Route, values: T.Values, body: Option<Json>, depth: nat, name: string)
    requires Emittable(t, r) && PathAccepted(t, r) && SourceText(r) == D.FromPath(name)
    ensures var id := IdFor(r, values, body, depth);
      R.Recovered(r.path, values, name) == if id.Ok? then Some(id.value) else None
    ensures R.Aligned(r.path, name) ==> IdFor(r, values, body, depth) == Ok(values(name))
    ensures R.FoundSegment(r.path, name).None? ==> IdFor(r, values, body, depth) == Err(O.NotInTemplate)
  {
    PathIsBuilt(t, r, values, name);
    R.LookupOnBuiltPath(r.path, values, name);
    if R.Aligned(r.path, name) {
      R.RecordIdSurvives(r.path, values, name);
    }
  }

  lemma FieldReady(b: TypeTable, c: Reader, r: Route, values: T.Values, body: Option<Json>, depth: nat, name: string)
    requires Emittable(b, r) && BodyIn(b, c, r, depth, body)
    requires SourceText(r) == D.FromField(name)
    ensures body.Some? && body.value.Obj?
    ensures IdFor(r, values, body, depth)
      == var m := Get(body.value.members, name);
         if m.Some? && m.value.Str? then Ok(m.value.s) else Err(O.FieldNotString)
  {
    BodyIsObject(b, c, r, depth, body);
    FieldIdFound(body.value, name, depth);
  }

  /** The call becomes the one queue operation it is meant to be. */
  ghost predicate QueuedAsMeant(r: Route, values: T.Values, body: Option<Json>, depth: nat) {
    r.optoSync.Some?
    && PlanFor(r, values, body, depth) == O.Enqueue(OpOf(r.optoSync.value, IdOf(r, values, body), body))
  }

  lemma StrongFieldIsQueued(client: Client, t: TypeTable, c: Checks, r: Route, values: T.Values,
      body: Option<Json>, depth: nat, name: string)
    requires Resolved(t) && Emittable(t, r) && Sendable(client, t, c, r, depth, body)
    requires SourceText(r) == D.FromField(name) && Ready(client, t, r)
    ensures IdFor(r, values, body, depth) == Ok(IdOf(r, values, body))
  {
    var b, reader := BodyTable(client, t), AsClient(c);
    EmittableForBodies(client, t, r);
    FieldReady(b, reader, r, values, body, depth, name);
    var i := SourceField(client, t, r.request.value, name);
    var k := RecordBody(b, reader, r.request.value, body.value);
    PromiseKept(b, reader, D.RecordFields(b, r.request.value).value, body.value, k, i);
  }

  lemma MintedIsQueued(r: Route, values: T.Values, body: Option<Json>, depth: nat)
    requires r.optoSync.Some? && SourceText(r) == D.Minted
    ensures IdFor(r, values, body, depth) == Ok(IdOf(r, values, body))
  {}

  lemma ReadyId(client: Client, t: TypeTable, c: Checks, r: Route, values: T.Values,
      body: Option<Json>, depth: nat)
    requires Resolved(t) && PathAccepted(t, r) && Emittable(t, r)
    requires Sendable(client, t, c, r, depth, body) && Ready(client, t, r)
    ensures IdFor(r, values, body, depth) == Ok(IdOf(r, values, body))
  {
    match SourceText(r)
    case Minted => MintedIsQueued(r, values, body, depth);
    case FromPath(name) => PathIdRecovered(t, r, values, body, depth, name);
    case FromField(name) => StrongFieldIsQueued(client, t, c, r, values, body, depth, name);
  }

  // A ready route never refuses a call: every one becomes exactly one queue
  // operation of the declared kind, for the intended record, with the body as
  // payload precisely when it is an upsert.
  lemma ReadyIsQueued(client: Client, t: TypeTable, c: Checks, r: Route, values: T.Values,
      body: Option<Json>, depth: nat)
    requires Validated(t, r) && Sendable(client, t, c, r, depth, body)
    requires Ready(client, t, r)
    ensures QueuedAsMeant(r, values, body, depth)
  {
    ValidatedEmittable(t, r);
    EmittableForBodies(client, t, r);
    PlanFollowsId(BodyTable(client, t), AsClient(c), r, values, body, depth);
    ReadyId(client, t, c, r, values, body, depth);
  }

  lemma OtherIdOtherOp(o: OptoSync, a: string, b: string, body: Option<Json>)
    requires a != b
    ensures OpOf(o, a, body) != OpOf(o, b, body)
  {}

  lemma MisalignedGoesWrong(b: TypeTable, t: TypeTable, c: Reader, r: Route, body: Option<Json>, depth: nat, name: string)
    returns (values: T.Values)
    requires Emittable(t, r) && PathAccepted(t, r) && Emittable(b, r) && BodyIn(b, c, r, depth, body)
    requires SourceText(r) == D.FromPath(name) && !R.Aligned(r.path, name)
    ensures !QueuedAsMeant(r, values, body, depth)
  {
    values := R.RecordIdLost(r.path, name);
    PathIdRecovered(t, r, values, body, depth, name);
    PlanFollowsId(b, c, r, values, body, depth);
    var id := IdFor(r, values, body, depth);
    if id.Ok? {
      OtherIdOtherOp(r.optoSync.value, id.value, values(name), body);
    }
  }

  lemma WeakFieldIsRefused(client: Client, t: TypeTable, c: Checks, r: Route, some: Option<Json>,
      depth: nat, name: string)
    returns (body: Option<Json>)
    requires Resolved(t) && Emittable(t, r) && Sendable(client, t, c, r, depth, some)
    requires SourceText(r) == D.FromField(name) && !Ready(client, t, r)
    ensures Sendable(client, t, c, r, depth, body)
    ensures forall values: T.Values :: PlanFor(r, values, body, depth) == O.Refuse(O.FieldNotString)
  {
    var b, reader := BodyTable(client, t), AsClient(c);
    EmittableForBodies(client, t, r);
    var i := SourceField(client, t, r.request.value, name);
    var k := RecordBody(b, reader, r.request.value, some.value);
    var w, more := PromiseBroken(b, reader, D.RecordFields(b, r.request.value).value, some.value, k, i);
    BodyOfRecord(b, reader, r.request.value, w, more);
    body := Some(w);
    forall values: T.Values ensures PlanFor(r, values, body, depth) == O.Refuse(O.FieldNotString) {
      PlanFollowsId(b, reader, r, values, body, depth);
      FieldReady(b, reader, r, values, body, depth, name);
    }
  }

  // Where the emitted builder compiles, a path source that does not fill a
  // whole segment refuses every single call.
  lemma UnalignedRefusesAll(client: Client, t: TypeTable, c: Checks, r: Route, values: T.Values,
      body: Option<Json>, depth: nat, name: string)
    requires Validated(t, r) && Sendable(client, t, c, r, depth, body) && LegalNames(r)
    requires SourceText(r) == D.FromPath(name) && T.Placeholder(name) !in T.SplitSlash(r.path)
    ensures PlanFor(r, values, body, depth) == O.Refuse(O.NotInTemplate)
    ensures !Ready(client, t, r)
  {
    ValidatedEmittable(t, r);
    EmittableForBodies(client, t, r);
    LegalTemplateIsPlain(r.path);
    R.SlashFreeFindsOrFails(r.path, name);
    PathIdRecovered(t, r, values, body, depth, name);
    PlanFollowsId(BodyTable(client, t), AsClient(c), r, values, body, depth);
  }

  // A validated route that is not ready treats some call that the client can
  // make differently. Where the id comes from a field, one body is refused
  // whatever the path values; where it comes from the path and the emitted
  // builder compiles, everything is.
  lemma UnreadyGoesWrong(client: Client, t: TypeTable, c: Checks, r: Route, some: Option<Json>, depth: nat)
    returns (values: T.Values, body: Option<Json>)
    requires Validated(t, r) && Sendable(client, t, c, r, depth, some)
    requires !Ready(client, t, r)
    ensures Sendable(client, t, c, r, depth, body) && !QueuedAsMeant(r, values, body, depth)
    ensures SourceText(r).FromField? ==>
      forall any: T.Values :: PlanFor(r, any, body, depth) == O.Refuse(O.FieldNotString)
    ensures SourceText(r).FromPath? && LegalNames(r) ==>
      forall any: T.Values :: PlanFor(r, any, body, depth) == O.Refuse(O.NotInTemplate)
  {
    ValidatedEmittable(t, r);
    EmittableForBodies(client, t, r);
    if SourceText(r).FromPath? {
      var name := SourceText(r).name;
      body := some;
      values := MisalignedGoesWrong(BodyTable(client, t), t, AsClient(c), r, body, depth, name);
      if LegalNames(r) {
        LegalTemplateIsPlain(r.path);
        forall any: T.Values ensures PlanFor(r, any, body, depth) == O.Refuse(O.NotInTemplate) {
          UnalignedRefusesAll(client, t, c, r, any, body, depth, name);
        }
      }
    } else {
      values := R.Nothing();
      body := WeakFieldIsRefused(client, t, c, r, some, depth, SourceText(r).name);
    }
  }

  ghost predicate AlwaysQueuedAsMeant(client: Client, t: TypeTable, c: Checks, r: Route, depth: nat,
      typed: T.Values -> bool)
  {
    forall values: T.Values, body: Option<Json> ::
      typed(values) && Sendable(client, t, c, r, depth, body) ==> QueuedAsMeant(r, values, body, depth)
  }

  lemma ReadyAlways(client: Client, t: TypeTable, c: Checks, r: Route, depth: nat, typed: T.Values -> bool)
    requires Validated(t, r) && Ready(client, t, r)
    ensures AlwaysQueuedAsMeant(client, t, c, r, depth, typed)
  {
    forall values: T.Values, body | typed(values) && Sendable(client, t, c, r, depth, body)
      ensures QueuedAsMeant(r, values, body, depth)
    {
      ReadyIsQueued(client, t, c, r, values, body, depth);
    }
  }

  // Both directions at once, where the emitted builder compiles: whatever path
  // values the parameter types allow, as long as they allow any, every call
  // the client can make becomes the queue operation it is meant to be exactly
  // when the route is ready.
  lemma QueuedIffReady(client: Client, t: TypeTable, c: Checks, r: Route, some: Option<Json>, depth: nat,
      typed: T.Values -> bool, one: T.Values)
    requires Validated(t, r) && LegalNames(r)
    requires Sendable(client, t, c, r, depth, some) && typed(one)
    ensures AlwaysQueuedAsMeant(client, t, c, r, depth, typed) <==> Ready(client, t, r)
  {
    if Ready(client, t, r) {
      ReadyAlways(client, t, c, r, depth, typed);
    } else {
      ValidatedEmittable(t, r);
      var _, body := UnreadyGoesWrong(client, t, c, r, some, depth);
      assert !QueuedAsMeant(r, one, body, depth);
    }
  }

  // The same for any template at all, when every text is a path value.
  lemma AnyTextQueuedIffReady(client: Client, t: TypeTable, c: Checks, r: Route, some: Option<Json>, depth: nat)
    requires Validated(t, r) && Sendable(client, t, c, r, depth, some)
    ensures AlwaysQueuedAsMeant(client, t, c, r, depth, _ => true) <==> Ready(client, t, r)
  {
    if Ready(client, t, r) {
      ReadyAlways(client, t, c, r, depth, _ => true);
    } else {
      var values, body := UnreadyGoesWrong(client, t, c, r, some, depth);
      assert !QueuedAsMeant(r, values, body, depth);
    }
  }
}

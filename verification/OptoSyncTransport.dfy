// The transport that queues mutations (runtime/rust/opto_sync.rs).
module OptoSyncTransport {
  import opened Basics
  import opened Json
  import opened JsonDenotes
  import opened JsonGrammar
  import opened JsonParser
  import opened Percent
  import opened PercentText
  import T = PathTemplates
  import M = MintedIds

  datatype RecordIdSource = FromPathParam(name: string) | FromRequestField(field: string) | MintedId

  datatype Binding = Binding(table: string, operation: string, recordId: RecordIdSource)

  // The parts of an RpcRequest this transport looks at.
  datatype Request = Request(
    key: string, path: string, pathTemplate: string, body: Option<string>,
    queued: bool, optoSync: Option<Binding>)

  datatype Refusal = NotInTemplate | BadEncoding | NoBodyForField | FieldNotString | NoBody | BodyNotObject

  datatype QueueOp = Upsert(table: string, recordId: string, payload: string) | Delete(table: string, recordId: string)

  /** `extract_string_field`. */
  function StringField(text: string, field: string, depth: nat): Option<string> {
    match Parse(text, depth)
    case None => None
    case Some(v) =>
      if !v.Obj? then None
      else
        match Get<Json>(v.members, field)
        case None => None
        case Some(member) => if member.Str? then Some(member.s) else None
  }

  function RecordId(r: Request, source: RecordIdSource, depth: nat): Result<string, Refusal> {
    match source
    case FromPathParam(name) => (
      match T.SegmentForParam(r.pathTemplate, r.path, name)
      case None => Err(NotInTemplate)
      case Some(raw) => Decoded(raw))
    case FromRequestField(field) =>
      if r.body.None? then Err(NoBodyForField)
      else FieldId(StringField(r.body.value, field, depth))
    case MintedId => Ok(M.MintId(r.key, r.path, r.body))
  }

  function Decoded(raw: string): Result<string, Refusal> {
    match PercentDecode(raw)
    case None => Err(BadEncoding)
    case Some(id) => Ok(id)
  }

  function FieldId(found: Option<string>): Result<string, Refusal> {
    match found
    case None => Err(FieldNotString)
    case Some(id) => Ok(id)
  }

  // ------------------------------------------- what the record id is

  /** The path's segment where the template has the placeholder first. */
  ghost predicate SegmentOf(r: Request, name: string, segment: string) {
    exists i :: PlaceholderAt(r, name, i) && segment == T.SplitSlash(r.path)[i]
  }

  ghost predicate PlaceholderAt(r: Request, name: string, i: int) {
    && 0 <= i < |T.SplitSlash(r.pathTemplate)| && i < |T.SplitSlash(r.path)|
    && T.SplitSlash(r.pathTemplate)[i] == "{" + name + "}"
    && forall j :: 0 <= j < i ==> T.SplitSlash(r.pathTemplate)[j] != "{" + name + "}"
  }

  /** The text is an object whose last member of this name is this string. */
  ghost predicate FieldText(text: string, depth: nat, field: string, value: string) {
    exists w :: Padded(text, w) && Depth(w) <= depth && w.Obj? && LastOf(w.members, field) == Some(Str(value))
  }

  ghost predicate ObjectText(text: string, depth: nat) {
    exists w :: Padded(text, w) && Depth(w) <= depth && w.Obj?
  }

  lemma {:induction false} LockstepMeans(expected: seq<string>, actual: seq<string>, wanted: string, i: nat)
    requires i < |expected| && expected[i] == wanted && forall j :: 0 <= j < i ==> expected[j] != wanted
    ensures T.Lockstep(expected, actual, wanted) == if i < |actual| then Some(actual[i]) else None
    decreases |expected|
  {
    if actual != [] && i > 0 {
      LockstepMeans(expected[1..], actual[1..], wanted, i - 1);
    }
  }

  lemma {:induction false} LockstepFinds(expected: seq<string>, actual: seq<string>, wanted: string) returns (i: nat)
    requires T.Lockstep(expected, actual, wanted).Some?
    ensures i < |expected| && i < |actual| && expected[i] == wanted && forall j :: 0 <= j < i ==> expected[j] != wanted
    decreases |expected|
  {
    if expected[0] == wanted {
      i := 0;
    } else {
      i := LockstepFinds(expected[1..], actual[1..], wanted);
      i := i + 1;
    }
  }

  lemma SegmentMeans(r: Request, name: string)
    ensures var found := T.SegmentForParam(r.pathTemplate, r.path, name);
      forall segment :: SegmentOf(r, name, segment) <==> found == Some(segment)
  {
    var expected, actual, wanted := T.SplitSlash(r.pathTemplate), T.SplitSlash(r.path), T.Placeholder(name);
    assert wanted == "{" + name + "}";
    if T.SegmentForParam(r.pathTemplate, r.path, name).Some? {
      var i := LockstepFinds(expected, actual, wanted);
      LockstepMeans(expected, actual, wanted, i);
      assert PlaceholderAt(r, name, i);
    }
    forall i | PlaceholderAt(r, name, i)
      ensures T.SegmentForParam(r.pathTemplate, r.path, name) == Some(actual[i])
    {
      LockstepMeans(expected, actual, wanted, i);
    }
  }

  lemma ParsedObject(text: string, depth: nat)
    ensures Parse(text, depth).Some? && Parse(text, depth).value.Obj? <==> ObjectText(text, depth)
  {
    if Parse(text, depth).Some? && Parse(text, depth).value.Obj? {
      ParseIffDenotes(text, depth, Parse(text, depth).value);
      var w :| Padded(text, w) && Depth(w) <= depth && Value(w) == Parse(text, depth).value;
      assert w.Obj?;
    }
    if ObjectText(text, depth) {
      var w :| Padded(text, w) && Depth(w) <= depth && w.Obj?;
      ParseIffDenotes(text, depth, Value(w));
    }
  }

  lemma FieldMeans(text: string, depth: nat, field: string, value: string)
    ensures StringField(text, field, depth) == Some(value) <==> FieldText(text, depth, field, value)
  {
    if StringField(text, field, depth) == Some(value) {
      ParseIffDenotes(text, depth, Parse(text, depth).value);
      var w :| Padded(text, w) && Depth(w) <= depth && Value(w) == Parse(text, depth).value;
      CollectMeans(w.members, field);
      assert w.Obj?;
    }
    if FieldText(text, depth, field, value) {
      var w :| Padded(text, w) && Depth(w) <= depth && w.Obj? && LastOf(w.members, field) == Some(Str(value));
      ParseIffDenotes(text, depth, Value(w));
      CollectMeans(w.members, field);
    }
  }

  /** The record id, or why there is none, from the request alone. */
  ghost predicate IdIs(r: Request, source: RecordIdSource, depth: nat, id: Result<string, Refusal>) {
    match source
    case FromPathParam(name) => (
      match id
      case Ok(value) => exists segment :: SegmentOf(r, name, segment) && Represents(segment, value)
      case Err(NotInTemplate) => !exists segment :: SegmentOf(r, name, segment)
      case Err(BadEncoding) =>
        exists segment :: SegmentOf(r, name, segment) && forall value :: !Represents(segment, value)
      case Err(_) => false)
    case FromRequestField(field) => (
      match id
      case Ok(value) => r.body.Some? && FieldText(r.body.value, depth, field, value)
      case Err(NoBodyForField) => r.body.None?
      case Err(FieldNotString) => r.body.Some? && forall value :: !FieldText(r.body.value, depth, field, value)
      case Err(_) => false)
    case MintedId => id == Ok(M.MintId(r.key, r.path, r.body))
  }

  // The record id is the segment's value, the field's, or minted, and every
  // refusal has its one reason.
  lemma RecordIdMeans(r: Request, source: RecordIdSource, depth: nat)
    ensures IdIs(r, source, depth, RecordId(r, source, depth))
  {
    match source
    case FromPathParam(name) =>
      SegmentMeans(r, name);
      var segment := T.SegmentForParam(r.pathTemplate, r.path, name);
      if segment.Some? {
        assert SegmentOf(r, name, segment.value);
        forall value ensures PercentDecode(segment.value) == Some(value) <==> Represents(segment.value, value) {
          PercentDecodeIff(segment.value, value);
        }
      }
    case FromRequestField(field) =>
      if r.body.Some? {
        forall value
          ensures StringField(r.body.value, field, depth) == Some(value)
            <==> FieldText(r.body.value, depth, field, value)
        {
          FieldMeans(r.body.value, depth, field, value);
        }
      }
    case MintedId =>
  }

  /** `OptoSyncTransport::record_id`. */
  method ResolveRecordId(r: Request, source: RecordIdSource, depth: nat) returns (id: Result<string, Refusal>)
    ensures id == RecordId(r, source, depth)
    ensures IdIs(r, source, depth, id)
  {
    RecordIdMeans(r, source, depth);
    match source {
      case FromPathParam(name) =>
        var raw := T.FindSegment(r.pathTemplate, r.path, name);
        if raw.None? {
          return Err(NotInTemplate);
        }
        var text := PercentDecodeLoop(raw.value);
        id := if text.None? then Err(BadEncoding) else Ok(text.value);
      case FromRequestField(field) =>
        if r.body.None? {
          return Err(NoBodyForField);
        }
        var text := StringField(r.body.value, field, depth);
        id := if text.None? then Err(FieldNotString) else Ok(text.value);
      case MintedId =>
        var minted := M.MintIdLoop(r.key, r.path, r.body);
        id := Ok(minted);
    }
  }

  // What one call is going to do, before anything outside has a say.
  datatype Plan = GoDirect | Refuse(why: Refusal) | Enqueue(op: QueueOp)

  function PlanOf(r: Request, depth: nat): Plan {
    if !r.queued || r.optoSync.None? then GoDirect
    else
      var b := r.optoSync.value;
      match RecordId(r, b.recordId, depth)
      case Err(why) => Refuse(why)
      case Ok(id) => PlanQueued(b, id, r.body, depth)
  }

  function PlanQueued(b: Binding, id: string, body: Option<string>, depth: nat): Plan {
    if b.operation == "delete" then Enqueue(Delete(b.table, id))
    else if body.None? then Refuse(NoBody)
    else
      match Parse(body.value, depth)
      case Some(Obj(_)) => Enqueue(Upsert(b.table, id, body.value))
      case _ => Refuse(BodyNotObject)
  }

  // What the outside world answers during one call: the online transport, the
  // queue (does it take the mutation?) and the local readback.
  datatype World = World(
    direct: Result<string, string>,
    queue: Result<string, string>,
    local: Result<Option<string>, string>)

  datatype Outcome =
    | Answer(json: string)
    | DirectFailed(error: string)
    | QueueFailed(error: string)
    | ReadbackFailed(error: string)
    | NotQueueable(why: Refusal)
    | NoLocalProjection(table: string, recordId: string)

  /** The caller's own write, read back through the local view. */
  ghost predicate ReadBack(op: QueueOp, local: Result<Option<string>, string>, outcome: Outcome) {
    && (local.Err? ==> outcome == ReadbackFailed(local.error))
    && (local == Ok(None) ==> outcome == NoLocalProjection(op.table, op.recordId))
    && (local.Ok? && local.value.Some? ==> outcome == Answer(local.value.value))
  }

  /** The request is to be queued. */
  predicate Queues(r: Request) { r.queued && r.optoSync.Some? }

  /** What a queued request asks for: a deletion, an upsert with its body, or
      nothing that can be done. */
  ghost predicate PlanIs(r: Request, depth: nat, plan: Plan)
    requires Queues(r)
  {
    var b, id := r.optoSync.value, RecordId(r, r.optoSync.value.recordId, depth);
    && IdIs(r, b.recordId, depth, id)
    && (id.Err? ==> plan == Refuse(id.error))
    && (id.Ok? && b.operation == "delete" ==> plan == Enqueue(Delete(b.table, id.value)))
    && (id.Ok? && b.operation != "delete" && r.body.None? ==> plan == Refuse(NoBody))
    && (id.Ok? && b.operation != "delete" && r.body.Some? ==>
          plan == if ObjectText(r.body.value, depth) then Enqueue(Upsert(b.table, id.value, r.body.value))
                  else Refuse(BodyNotObject))
  }

  lemma PlanMeans(r: Request, depth: nat)
    ensures PlanOf(r, depth).GoDirect? <==> !Queues(r)
    ensures Queues(r) ==> PlanIs(r, depth, PlanOf(r, depth))
  {
    if Queues(r) {
      RecordIdMeans(r, r.optoSync.value.recordId, depth);
      if r.body.Some? {
        ParsedObject(r.body.value, depth);
      }
    }
  }

  // The queue is an append-only log of accepted mutations; `online` logs the
  // requests sent straight to the server.
  class Transport {
    var queue: seq<QueueOp>
    var online: seq<Request>

    constructor ()
      ensures queue == [] && online == []
    {
      queue, online := [], [];
    }

    /** `RpcTransport::call`. */
    method Call(r: Request, depth: nat, world: World) returns (outcome: Outcome)
      modifies this
      ensures !Queues(r) ==>
        && online == old(online) + [r] && queue == old(queue)
        && outcome == if world.direct.Ok? then Answer(world.direct.value) else DirectFailed(world.direct.error)
      ensures Queues(r) ==> PlanIs(r, depth, PlanOf(r, depth))
      ensures Queues(r) ==> var plan := PlanOf(r, depth);
        && !plan.GoDirect?
        && (plan.Refuse? ==>
              online == old(online) && queue == old(queue) && outcome == NotQueueable(plan.why))
        && (plan.Enqueue? ==>
              && online == old(online)
              && (world.queue.Err? ==> queue == old(queue) && outcome == QueueFailed(world.queue.error))
              && (world.queue.Ok? ==> queue == old(queue) + [plan.op] && ReadBack(plan.op, world.local, outcome)))
    {
      PlanMeans(r, depth);
      if !r.queued || r.optoSync.None? {
        online := online + [r];
        return if world.direct.Ok? then Answer(world.direct.value) else DirectFailed(world.direct.error);
      }
      var b := r.optoSync.value;
      var id := ResolveRecordId(r, b.recordId, depth);
      if id.Err? {
        return NotQueueable(id.error);
      }
      var op: QueueOp;
      if b.operation == "delete" {
        op := Delete(b.table, id.value);
      } else {
        if r.body.None? {
          return NotQueueable(NoBody);
        }
        var parsed := Parse(r.body.value, depth);
        if parsed.None? || !parsed.value.Obj? {
          return NotQueueable(BodyNotObject);
        }
        op := Upsert(b.table, id.value, r.body.value);
      }
      if world.queue.Err? {
        return QueueFailed(world.queue.error);
      }
      queue := queue + [op];
      if world.local.Err? {
        return ReadbackFailed(world.local.error);
      }
      if world.local.value.None? {
        return NoLocalProjection(b.table, id.value);
      }
      outcome := Answer(world.local.value.value);
    }
  }
}

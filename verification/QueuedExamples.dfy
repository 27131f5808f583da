// A validated queued route whose every call is refused.
module QueuedExamples {
  import opened Basics
  import opened Naming
  import opened Types
  import opened Conformance
  import opened Routes
  import opened ClientBodies
  import opened EmittedNames
  import opened QueuedCalls
  import D = Delivery
  import O = OptoSyncTransport
  import T = PathTemplates

  const LEAD := "/v1/x-"
  const ID := "id"

  /** DELETE /v1/x-{id}, queued as a deletion of the record `path.id` names. */
  function PartialSegment(): Route {
    Route("drop_x", LEAD + (T.Placeholder(ID) + ""), ["DELETE"], [PathParam(ID, Base(Builtin.String), true)],
      None, D.QUEUED, D.UNARY, true, Some(OptoSync("xs", "path.id", D.DELETE)))
  }

  lemma SourceIsPathId()
    ensures D.SourceOf("path.id") == D.FromPath(ID)
  {
    var src := "path.id";
    assert src[..4] == "path" && src[4] == '.' && src[5..] == "id";
    T.FindIs(src, '.', 4);
  }

  lemma DeliveryFine(t: TypeTable)
    ensures D.DeliveryAccepted(t, PartialSegment())
  {
    var r := PartialSegment();
    SourceIsPathId();
    var o := r.optoSync.value;
    assert r.pathParams[0].wire == ID;
    assert D.DIRECT != D.QUEUED && D.UPSERT != D.DELETE && o.recordIdFrom != "" && D.TableName("xs");
    forall e: D.DeliveryError ensures !D.DeliveryFault(t, r, e) {
      assert !D.SourceFault(t, r, D.FromPath(ID), e);
      assert !D.BlockFault(t, r, o, e);
    }
  }

  lemma IdIsIdentifier()
    ensures Identifier(Snake(ID)) && Unbraced(ID)
  {
    assert ID[1..] == "d" && "d"[1..] == "";
    assert SnakeFrom("d", Some('i'), true) == "d";
  }

  lemma PathFine(t: TypeTable)
    ensures PathAccepted(t, PartialSegment()) && LegalNames(PartialSegment())
  {
    var r := PartialSegment();
    CountAbsent(LEAD, '{');
    IdIsIdentifier();
    assert OneParam(r, LEAD, ID, "");
    OneParamAccepted(t, r, LEAD, ID, "");
    OneParamLegal(r, LEAD, ID);
  }

  lemma NoWholeSegment(v: string, x: string, hole: string)
    requires '/' !in v && '/' !in x && '/' !in hole && x != "" && hole != "" && v != hole
    ensures hole !in T.SplitSlash("/" + v + "/" + x + hole)
  {
    var last := x + hole;
    assert "/" + v + "/" + x + hole == "" + ("/" + (v + ("/" + last)));
    T.SplitSlashed("", v + ("/" + last));
    T.SplitSlashed(v, last);
    T.SplitWhole(last);
    assert |last| > |hole|;
  }

  // The validator accepts the route, its names are legal, and yet whatever id
  // it is called with, nothing is queued: the placeholder is only part of a
  // segment.
  lemma ValidatedButRefused(client: Client, t: TypeTable, c: Checks, values: T.Values, depth: nat)
    requires Resolved(t)
    ensures Validated(t, PartialSegment()) && !Ready(client, t, PartialSegment())
    ensures Sendable(client, t, c, PartialSegment(), depth, None)
    ensures PlanFor(PartialSegment(), values, None, depth) == O.Refuse(O.NotInTemplate)
  {
    var r := PartialSegment();
    DeliveryFine(t);
    PathFine(t);
    SourceIsPathId();
    var hole := T.Placeholder(ID);
    assert hole == "{id}" && r.path == "/" + "v1" + "/" + "x-" + hole;
    NoWholeSegment("v1", "x-", hole);
    UnalignedRefusesAll(client, t, c, r, values, None, depth, ID);
  }
}

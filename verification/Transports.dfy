// Choosing a wire for a call (`MultiTransport` in runtime/rust/transports.rs).
module Transports {
  import opened Basics

  datatype Kind = Http | WebSocket | Tcp | Nats

  function KindName(k: Kind): string {
    match k
    case Http => "http"
    case WebSocket => "websocket"
    case Tcp => "tcp"
    case Nats => "nats"
  }

  function ParseKind(value: string): (k: Option<Kind>)
    ensures k.Some? ==> KindName(k.value) == value
  {
    if value == "http" then Some(Http)
    else if value == "websocket" then Some(WebSocket)
    else if value == "tcp" then Some(Tcp)
    else if value == "nats" then Some(Nats)
    else None
  }

  // A registered wire: whether it says it is ready while a call is routed, and
  // what sending the call on it would give.
  datatype Wire = Wire(kind: Kind, ready: bool, reply: Result<string, string>)

  datatype Operation = Operation(key: string, transports: seq<string>)

  datatype Outcome =
    | Answer(body: string)
    | WireFailed(error: string)
    | NoneAvailable(declared: seq<Kind>)
    | UnknownOperation

  // What a call does besides returning: telemetry events and sends in order.
  datatype Event = Fallback(kind: Kind) | Started(kind: Kind) | Sent(wire: nat) | Finished(succeeded: bool)

  // ------------------------------------------------------- specification

  /** `declared`: the names that are known kinds, in order. */
  function Declared(names: seq<string>): seq<Kind> {
    if names == [] then []
    else (match ParseKind(names[0]) case None => [] case Some(k) => [k]) + Declared(names[1..])
  }

  /** `find`: the first wire of a kind. */
  function FirstWire(wires: seq<Wire>, kind: Kind): (i: Option<nat>)
    ensures i.Some? ==> i.value < |wires| && wires[i.value].kind == kind
    ensures i.Some? ==> forall j :: 0 <= j < i.value ==> wires[j].kind != kind
    ensures i.None? ==> forall j :: 0 <= j < |wires| ==> wires[j].kind != kind
    decreases |wires|
  {
    if wires == [] then None
    else if wires[0].kind == kind then Some(0)
    else
      match FirstWire(wires[1..], kind)
      case None => None
      case Some(i) => Some(i + 1)
  }

  function FirstOperation(operations: seq<Operation>, key: string): (op: Option<Operation>)
    ensures op.Some? ==> op.value in operations && op.value.key == key
    ensures op.None? ==> forall o :: o in operations ==> o.key != key
  {
    if operations == [] then None
    else if operations[0].key == key then Some(operations[0])
    else FirstOperation(operations[1..], key)
  }

  /** A declared kind with a wire to try. */
  predicate Candidate(wires: seq<Wire>, declared: seq<Kind>, kind: Kind) {
    kind in declared && FirstWire(wires, kind).Some?
  }

  predicate Usable(wires: seq<Wire>, declared: seq<Kind>, kind: Kind) {
    Candidate(wires, declared, kind) && wires[FirstWire(wires, kind).value].ready
  }

  /** The preferred kind at `i` is the first usable one. */
  ghost predicate Choice(wires: seq<Wire>, declared: seq<Kind>, preference: seq<Kind>, i: int) {
    && 0 <= i < |preference|
    && Usable(wires, declared, preference[i])
    && forall j :: 0 <= j < i ==> !Usable(wires, declared, preference[j])
  }

  ghost predicate SomeChoice(wires: seq<Wire>, declared: seq<Kind>, preference: seq<Kind>) {
    exists i :: Choice(wires, declared, preference, i)
  }

  /** One fallback report for every candidate passed over, in order. */
  function Fallbacks(wires: seq<Wire>, declared: seq<Kind>, skipped: seq<Kind>): seq<Event> {
    if skipped == [] then []
    else
      var front := Fallbacks(wires, declared, skipped[..|skipped| - 1]);
      var last := skipped[|skipped| - 1];
      if Candidate(wires, declared, last) then front + [Fallback(last)] else front
  }

  /** What a routed call may have done: one send, on the first registered wire
      of the first usable preference, or none where there is no such preference. */
  ghost predicate Routed(wires: seq<Wire>, declared: seq<Kind>, preference: seq<Kind>,
                         before: seq<Event>, after: seq<Event>, outcome: Outcome) {
    && (forall i :: Choice(wires, declared, preference, i) ==>
          var w := FirstWire(wires, preference[i]).value;
          && Returned(wires[w].reply, outcome)
          && after == before + Fallbacks(wires, declared, preference[..i])
               + [Started(preference[i]), Sent(w), Finished(wires[w].reply.Ok?)])
    && (!SomeChoice(wires, declared, preference) ==>
          outcome == NoneAvailable(declared) && after == before + Fallbacks(wires, declared, preference))
  }

  /** A reply and what the caller gets for it. */
  predicate Returned(reply: Result<string, string>, outcome: Outcome) {
    && (reply.Ok? ==> outcome == Answer(reply.value))
    && (reply.Err? ==> outcome == WireFailed(reply.error))
  }

  /** The call sent on this wire. */
  ghost predicate SentOn(before: seq<Event>, after: seq<Event>, w: nat) {
    before <= after && Sent(w) in after[|before|..]
  }

  /** The wire the call was sent on replied this. */
  ghost predicate Replied(wires: seq<Wire>, before: seq<Event>, after: seq<Event>, reply: Result<string, string>) {
    exists w: nat :: SentOn(before, after, w) && w < |wires| && wires[w].reply == reply
  }

  ghost predicate Covers(preference: seq<Kind>, wires: seq<Wire>) {
    forall i :: 0 <= i < |wires| ==> wires[i].kind in preference
  }

  /** Of the first `n` wires, the kinds not in `order`, each where it is first
      registered. */
  function Others(order: seq<Kind>, wires: seq<Wire>, n: nat): seq<Kind>
    requires n <= |wires|
  {
    if n == 0 then []
    else
      var k := wires[n - 1].kind;
      if k !in order && FirstWire(wires, k) == Some(n - 1) then Others(order, wires, n - 1) + [k]
      else Others(order, wires, n - 1)
  }

  lemma {:induction false} OthersMean(order: seq<Kind>, wires: seq<Wire>, n: nat, k: Kind)
    requires n <= |wires|
    ensures k in Others(order, wires, n)
      <==> k !in order && FirstWire(wires, k).Some? && FirstWire(wires, k).value < n
  {
    if n > 0 {
      OthersMean(order, wires, n - 1, k);
    }
  }

  // -------------------------------------------------------------- the code

  class MultiTransport {
    const wires: seq<Wire>
    const operations: seq<Operation>
    var preference: seq<Kind>
    var events: seq<Event>

    constructor (wires: seq<Wire>, operations: seq<Operation>)
      ensures this.wires == wires && this.operations == operations && events == []
      ensures |preference| == |wires| && forall i :: 0 <= i < |wires| ==> preference[i] == wires[i].kind
      ensures Covers(preference, wires)
    {
      this.wires := wires;
      this.operations := operations;
      events := [];
      preference := seq(|wires|, i requires 0 <= i < |wires| => wires[i].kind);
    }

    /** `prefer`: the given order first, then every other registered kind once,
        in registration order. */
    method Prefer(order: seq<Kind>)
      modifies this`preference
      ensures preference == order + Others(order, wires, |wires|)
      ensures Covers(preference, wires)
    {
      var result := order;
      var i := 0;
      while i < |wires|
        invariant 0 <= i <= |wires|
        invariant result == order + Others(order, wires, i)
      {
        OthersMean(order, wires, i, wires[i].kind);
        if wires[i].kind !in result {
          result := result + [wires[i].kind];
        }
        i := i + 1;
      }
      preference := result;
      forall j | 0 <= j < |wires| ensures wires[j].kind in preference {
        OthersMean(order, wires, |wires|, wires[j].kind);
      }
    }

    /** `call`. */
    method Call(key: string) returns (outcome: Outcome)
      modifies this`events
      ensures FirstOperation(operations, key).None? ==> outcome == UnknownOperation && events == old(events)
      ensures FirstOperation(operations, key).Some? ==>
        var names := FirstOperation(operations, key).value.transports;
        && Routed(wires, Declared(names), preference, old(events), events, outcome)
        && (Covers(preference, wires) ==> (outcome.NoneAvailable? <==> !Available(wires, names)))
      ensures forall v: nat, w: nat :: SentOn(old(events), events, v) && SentOn(old(events), events, w) ==> v == w
      ensures forall body :: outcome == Answer(body) <==> Replied(wires, old(events), events, Ok(body))
      ensures forall error :: outcome == WireFailed(error) <==> Replied(wires, old(events), events, Err(error))
    {
      var op := FirstOperation(operations, key);
      if op.None? {
        return UnknownOperation;
      }
      outcome := TryInOrder(Declared(op.value.transports));
      RoutedSends(wires, Declared(op.value.transports), preference, old(events), events, outcome);
      if Covers(preference, wires) {
        ChoiceIffAvailable(wires, op.value.transports, preference);
      }
    }

    method TryInOrder(declared: seq<Kind>) returns (outcome: Outcome)
      modifies this`events
      ensures Routed(wires, declared, preference, old(events), events, outcome)
      ensures outcome.NoneAvailable? <==> !SomeChoice(wires, declared, preference)
    {
      var i := 0;
      while i < |preference|
        invariant 0 <= i <= |preference|
        invariant events == old(events) + Fallbacks(wires, declared, preference[..i])
        invariant forall j :: 0 <= j < i ==> !Usable(wires, declared, preference[j])
      {
        var kind := preference[i];
        assert preference[..i + 1][..i] == preference[..i] && preference[..i + 1][i] == kind;
        if kind in declared {
          var wire := FirstWire(wires, kind);
          if wire.Some? {
            if wires[wire.value].ready {
              assert Choice(wires, declared, preference, i);
              var reply := wires[wire.value].reply;
              events := events + [Started(kind), Sent(wire.value), Finished(reply.Ok?)];
              match reply {
                case Ok(body) => return Answer(body);
                case Err(error) => return WireFailed(error);
              }
            }
            events := events + [Fallback(kind)];
          }
        }
        i := i + 1;
      }
      assert preference[..i] == preference;
      outcome := NoneAvailable(declared);
    }
  }

  // -------------------------------------------------------- what it means

  lemma {:induction false} DeclaredMeans(names: seq<string>, k: Kind)
    ensures k in Declared(names) <==> KindName(k) in names
  {
    if names != [] {
      DeclaredMeans(names[1..], k);
      assert ParseKind(KindName(k)) == Some(k);
      assert names == [names[0]] + names[1..];
    }
  }

  lemma {:induction false} FirstUsable(wires: seq<Wire>, declared: seq<Kind>, preference: seq<Kind>, n: nat)
    requires n < |preference| && Usable(wires, declared, preference[n])
    ensures SomeChoice(wires, declared, preference)
  {
    if j :| 0 <= j < n && Usable(wires, declared, preference[j]) {
      FirstUsable(wires, declared, preference, j);
    } else {
      assert Choice(wires, declared, preference, n);
    }
  }

  /** Some declared kind has its first registered wire ready. */
  ghost predicate Available(wires: seq<Wire>, names: seq<string>) {
    exists w :: 0 <= w < |wires| && wires[w].ready && KindName(wires[w].kind) in names
      && forall v :: 0 <= v < w ==> wires[v].kind != wires[w].kind
  }

  // With a preference that covers the wires, as `new` and `prefer` leave it, a
  // choice exists exactly when some declared kind has its first wire ready.
  lemma ChoiceIffAvailable(wires: seq<Wire>, names: seq<string>, preference: seq<Kind>)
    requires Covers(preference, wires)
    ensures SomeChoice(wires, Declared(names), preference) <==> Available(wires, names)
  {
    var declared := Declared(names);
    if i :| Choice(wires, declared, preference, i) {
      var w := FirstWire(wires, preference[i]).value;
      DeclaredMeans(names, preference[i]);
      assert wires[w].ready;
    }
    if Available(wires, names) {
      var w :| 0 <= w < |wires| && wires[w].ready && KindName(wires[w].kind) in names
        && forall v :: 0 <= v < w ==> wires[v].kind != wires[w].kind;
      DeclaredMeans(names, wires[w].kind);
      assert FirstWire(wires, wires[w].kind) == Some(w);
      var n :| 0 <= n < |preference| && preference[n] == wires[w].kind;
      FirstUsable(wires, declared, preference, n);
    }
  }

  lemma {:induction false} FallbacksSendNothing(wires: seq<Wire>, declared: seq<Kind>, skipped: seq<Kind>)
    ensures forall e :: e in Fallbacks(wires, declared, skipped) ==> e.Fallback?
    decreases |skipped|
  {
    if skipped != [] {
      FallbacksSendNothing(wires, declared, skipped[..|skipped| - 1]);
    }
  }

  // A choice is sent on, and nothing else is.
  lemma ChoiceSends(before: seq<Event>, after: seq<Event>, skipped: seq<Event>, kind: Kind, w: nat, ok: bool)
    requires forall e :: e in skipped ==> e.Fallback?
    requires after == before + skipped + [Started(kind), Sent(w), Finished(ok)]
    ensures forall v: nat :: SentOn(before, after, v) <==> v == w
  {
    var tail := [Started(kind), Sent(w), Finished(ok)];
    assert after[|before|..] == skipped + tail;
    assert tail[1] == Sent(w) && Sent(w) in tail;
    assert forall e :: e in skipped + tail <==> e in skipped || e in tail;
  }

  // Nothing is sent where nothing can be chosen, and only on the wire of the
  // choice where something can.
  lemma RoutedSends(wires: seq<Wire>, declared: seq<Kind>, preference: seq<Kind>,
                    before: seq<Event>, after: seq<Event>, outcome: Outcome)
    requires Routed(wires, declared, preference, before, after, outcome)
    ensures forall v: nat, w: nat :: SentOn(before, after, v) && SentOn(before, after, w) ==> v == w
    ensures forall w: nat :: SentOn(before, after, w) ==> w < |wires| && Returned(wires[w].reply, outcome)
    ensures outcome.NoneAvailable? || exists w: nat :: SentOn(before, after, w)
  {
    if i :| Choice(wires, declared, preference, i) {
      var w := FirstWire(wires, preference[i]).value;
      FallbacksSendNothing(wires, declared, preference[..i]);
      ChoiceSends(before, after, Fallbacks(wires, declared, preference[..i]), preference[i], w, wires[w].reply.Ok?);
      assert SentOn(before, after, w);
    } else {
      FallbacksSendNothing(wires, declared, preference);
      assert after[|before|..] == Fallbacks(wires, declared, preference);
    }
  }

  // The kinds reported as skipped are declared, registered and not ready.
  lemma {:induction false} FallbacksAreUnready(wires: seq<Wire>, declared: seq<Kind>, skipped: seq<Kind>, e: Event)
    requires forall j :: 0 <= j < |skipped| ==> !Usable(wires, declared, skipped[j])
    requires e in Fallbacks(wires, declared, skipped)
    ensures e.Fallback? && e.kind in skipped && e.kind in declared
    ensures FirstWire(wires, e.kind).Some? && !wires[FirstWire(wires, e.kind).value].ready
    decreases |skipped|
  {
    var n := |skipped| - 1;
    if e in Fallbacks(wires, declared, skipped[..n]) {
      FallbacksAreUnready(wires, declared, skipped[..n], e);
    } else {
      assert e == Fallback(skipped[n]);
    }
  }
}

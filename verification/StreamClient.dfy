// The client side of a stream (runtime/go/stream.go): `Next` and `Cancel`.
module StreamClient {
  import opened Basics
  import opened Json
  import opened Frames

  // What one read of the session brings.
  datatype SessionEvent = Arrived(frame: Frame) | Closed | Broken(error: string)

  datatype StreamError =
    | TransportFailed(error: string)
    | NoTerminator
    | WrongId(id: string)
    | DataWithoutBody
    | BadData(error: string)
    | Remote(code: string, message: string)
    | CallInside
    | CancelFailed(error: string)

  // What a call of `Next` returns: an item, the end of the stream, or an error.
  datatype NextResult<+T> = Item(value: T) | Nothing | Failed(error: StreamError)

  datatype State = State(ended: bool, cancelled: bool, done: bool, err: Option<StreamError>)

  const FRESH := State(false, false, false, None)

  function Fail(s: State, e: StreamError): State {
    s.(done := true, err := Some(e))
  }

  // ------------------------------------------------------ what a read means

  datatype Meaning<+T> = Pass(value: T) | EndMark | CancelMark | Hangup | Fault(error: StreamError)

  /** What an event says to the stream with this id. */
  function MeaningOf<T>(id: string, decode: Json -> Result<T, string>, e: SessionEvent): Meaning<T> {
    match e
    case Broken(error) => Fault(TransportFailed(error))
    case Closed => Hangup
    case Arrived(f) =>
      if f.id != id then Fault(WrongId(f.id))
      else
        match f.kind
        case Data =>
          if f.body.None? then Fault(DataWithoutBody) else DataMeaning(decode(f.body.value))
        case End => EndMark
        case Error => Fault(Remote(OrEmpty(f.code), OrEmpty(f.message)))
        case Cancel => CancelMark
        case Call => Fault(CallInside)
  }

  function DataMeaning<T>(decoded: Result<T, string>): Meaning<T> {
    match decoded
    case Ok(value) => Pass(value)
    case Err(error) => Fault(BadData(error))
  }

  /** State and result after a read with this meaning. */
  function AfterRead<T>(s: State, m: Meaning<T>): (State, NextResult<T>) {
    match m
    case Pass(value) => (s, Item(value))
    case EndMark => (s.(ended := true, done := true), Nothing)
    case CancelMark => (s.(cancelled := true, done := true), Nothing)
    case Hangup =>
      if s.ended || s.cancelled then (s.(done := true), Nothing)
      else (Fail(s, NoTerminator), Failed(NoTerminator))
    case Fault(e) => (Fail(s, e), Failed(e))
  }

  /** State after the session answered a cancellation. */
  function AfterCancel(s: State, refused: Option<string>): State {
    match refused
    case Some(error) => s.(err := Some(CancelFailed(error)))
    case None => s.(cancelled := true, done := true)
  }

  // ------------------------------------------------- reads, read off the event

  /** The event carries an item of this stream. */
  predicate Passes<T>(id: string, decode: Json -> Result<T, string>, e: SessionEvent) {
    && e.Arrived? && e.frame.id == id && e.frame.kind == Data && e.frame.body.Some?
    && decode(e.frame.body.value).Ok?
  }

  function ItemOf<T>(id: string, decode: Json -> Result<T, string>, e: SessionEvent): T
    requires Passes(id, decode, e)
  {
    decode(e.frame.body.value).value
  }

  /** What the first event that is no item makes of the stream. */
  function Last<T>(id: string, decode: Json -> Result<T, string>, e: SessionEvent): NextResult<T> {
    match e
    case Broken(error) => Failed(TransportFailed(error))
    case Closed => Failed(NoTerminator)
    case Arrived(f) =>
      if f.id != id then Failed(WrongId(f.id))
      else if f.kind == End || f.kind == Cancel then Nothing
      else if f.kind == Error then Failed(Remote(OrEmpty(f.code), OrEmpty(f.message)))
      else if f.kind == Call then Failed(CallInside)
      else if f.body.None? then Failed(DataWithoutBody)
      else
        match decode(f.body.value)
        case Ok(_) => Nothing
        case Err(error) => Failed(BadData(error))
  }

  /** The event is a frame of this stream and of this kind. */
  predicate Own(id: string, e: SessionEvent, kind: FrameKind) {
    e.Arrived? && e.frame.id == id && e.frame.kind == kind
  }

  /** What a read does to any state: an item leaves it alone, everything else
      ends the reading, and what it is decides flags, error and result. */
  ghost predicate ReadIs<T>(id: string, decode: Json -> Result<T, string>, e: SessionEvent,
                            s: State, f: State, r: NextResult<T>) {
    if Passes(id, decode, e) then f == s && r == Item(ItemOf(id, decode, e))
    else
      && f.done && f.ended == (s.ended || Own(id, e, End)) && f.cancelled == (s.cancelled || Own(id, e, Cancel))
      && (if e.Closed? && (s.ended || s.cancelled) then r == Nothing else r == Last(id, decode, e))
      && f.err == if r.Failed? then Some(r.error) else s.err
  }

  lemma ReadMeans<T>(id: string, decode: Json -> Result<T, string>, e: SessionEvent, s: State)
    ensures var (f, r) := AfterRead(s, MeaningOf(id, decode, e)); ReadIs(id, decode, e, s, f, r)
  {}

  // ----------------------------------------------------------- the objects

  // A session answers its k-th read and its k-th cancellation as scripted.
  class Session {
    const script: nat -> SessionEvent
    const refusals: nat -> Option<string>
    var drawn: nat
    var cancels: nat

    constructor (script: nat -> SessionEvent, refusals: nat -> Option<string>)
      ensures this.script == script && this.refusals == refusals
      ensures drawn == 0 && cancels == 0
    {
      this.script := script;
      this.refusals := refusals;
      drawn, cancels := 0, 0;
    }

    method Next() returns (e: SessionEvent)
      modifies this`drawn
      ensures e == script(old(drawn)) && drawn == old(drawn) + 1
    {
      e := script(drawn);
      drawn := drawn + 1;
    }

    method Cancel() returns (refused: Option<string>)
      modifies this`cancels
      ensures refused == refusals(old(cancels)) && cancels == old(cancels) + 1
    {
      refused := refusals(cancels);
      cancels := cancels + 1;
    }
  }

  class RpcStreamClient<T> {
    const session: Session
    const id: string
    const decode: Json -> Result<T, string>
    var ended: bool
    var cancelled: bool
    var done: bool
    var err: Option<StreamError>

    constructor (session: Session, id: string, decode: Json -> Result<T, string>)
      ensures this.session == session && this.id == id && this.decode == decode
      ensures Abs() == FRESH
    {
      this.session := session;
      this.id := id;
      this.decode := decode;
      ended, cancelled, done, err := false, false, false, None;
    }

    function Abs(): State
      reads this
    {
      State(ended, cancelled, done, err)
    }

    /** `RpcStreamClient.Next`. */
    method Next() returns (r: NextResult<T>)
      modifies this, session`drawn
      ensures old(done) ==> r == Nothing && Abs() == old(Abs()) && session.drawn == old(session.drawn)
      ensures !old(done) ==>
        && session.drawn == old(session.drawn) + 1
        && (Abs(), r) == AfterRead(old(Abs()), MeaningOf(id, decode, session.script(old(session.drawn))))
        && ReadIs(id, decode, session.script(old(session.drawn)), old(Abs()), Abs(), r)
    {
      ReadMeans(id, decode, session.script(session.drawn), Abs());
      if done {
        return Nothing;
      }
      var event := session.Next();
      match event {
        case Broken(error) =>
          done, err := true, Some(TransportFailed(error));
          return Failed(err.value);
        case Closed =>
          done := true;
          if ended || cancelled {
            return Nothing;
          }
          err := Some(NoTerminator);
          return Failed(err.value);
        case Arrived(frame) =>
          if frame.id != id {
            done, err := true, Some(WrongId(frame.id));
            return Failed(err.value);
          }
          r := Dispatch(frame);
      }
    }

    method Dispatch(frame: Frame) returns (r: NextResult<T>)
      requires frame.id == id
      modifies this
      ensures (Abs(), r) == AfterRead(old(Abs()), MeaningOf(id, decode, Arrived(frame)))
    {
      match frame.kind {
        case Data =>
          if frame.body.None? {
            done, err := true, Some(DataWithoutBody);
            return Failed(err.value);
          }
          var value := decode(frame.body.value);
          if value.Err? {
            done, err := true, Some(BadData(value.error));
            return Failed(err.value);
          }
          r := Item(value.value);
        case End =>
          ended, done := true, true;
          r := Nothing;
        case Error =>
          done, err := true, Some(Remote(OrEmpty(frame.code), OrEmpty(frame.message)));
          r := Failed(err.value);
        case Cancel =>
          cancelled, done := true, true;
          r := Nothing;
        case Call =>
          done, err := true, Some(CallInside);
          r := Failed(err.value);
      }
    }

    /** `RpcStreamClient.Cancel`. */
    method Cancel() returns (error: Option<StreamError>)
      modifies this, session`cancels
      ensures old(ended) || old(cancelled) ==>
        error == None && Abs() == old(Abs()) && session.cancels == old(session.cancels)
      ensures !(old(ended) || old(cancelled)) ==>
        && session.cancels == old(session.cancels) + 1
        && Abs() == AfterCancel(old(Abs()), session.refusals(old(session.cancels)))
        && ended == old(ended)
        && match session.refusals(old(session.cancels))
           case Some(text) =>
             error == Some(CancelFailed(text)) && err == error && cancelled == old(cancelled) && done == old(done)
           case None => error == None && err == old(err) && cancelled && done
    {
      if ended || cancelled {
        return None;
      }
      var refused := session.Cancel();
      if refused.Some? {
        err := Some(CancelFailed(refused.value));
        return err;
      }
      cancelled, done := true, true;
      error := None;
    }
  }

  // ------------------------------------------- uncancelled reading is a fold

  datatype Trace<+T> = Trace(state: State, drawn: nat, results: seq<NextResult<T>>)

  /** `n` calls of `Next` on a fresh client over a scripted session. */
  function Pump<T>(id: string, decode: Json -> Result<T, string>, script: nat -> SessionEvent, n: nat): Trace<T> {
    if n == 0 then Trace(FRESH, 0, [])
    else
      var before := Pump(id, decode, script, n - 1);
      if before.state.done then before.(results := before.results + [Nothing])
      else
        var (state, r) := AfterRead(before.state, MeaningOf(id, decode, script(before.drawn)));
        Trace(state, before.drawn + 1, before.results + [r])
  }

  /** A caller that asks `n` times; `Pump` is what it gets. */
  method Collect<T>(client: RpcStreamClient<T>, n: nat) returns (results: seq<NextResult<T>>)
    requires client.Abs() == FRESH && client.session.drawn == 0
    modifies client, client.session`drawn
    ensures Trace(client.Abs(), client.session.drawn, results)
      == Pump(client.id, client.decode, client.session.script, n)
  {
    results := [];
    var i := 0;
    while i < n
      invariant 0 <= i <= n
      invariant Trace(client.Abs(), client.session.drawn, results)
        == Pump(client.id, client.decode, client.session.script, i)
    {
      var r := client.Next();
      results := results + [r];
      i := i + 1;
    }
  }

  ghost predicate AllPass<T>(id: string, decode: Json -> Result<T, string>, script: nat -> SessionEvent, n: nat) {
    forall i: nat :: i < n ==> Passes(id, decode, script(i))
  }

  function FirstRead<T>(id: string, decode: Json -> Result<T, string>, e: SessionEvent): (State, NextResult<T>) {
    AfterRead(FRESH, MeaningOf(id, decode, e))
  }

  /** The i-th result: an item while every event passes, then what the first
      other event says, then nothing. */
  ghost function Expected<T>(id: string, decode: Json -> Result<T, string>,
    script: nat -> SessionEvent, i: nat): NextResult<T>
  {
    if !AllPass(id, decode, script, i) then Nothing
    else if Passes(id, decode, script(i)) then Item(ItemOf(id, decode, script(i)))
    else Last(id, decode, script(i))
  }

  // No event past the first one that is no item is read, and that event alone
  // decides the final state.
  lemma {:induction false} PumpReads<T>(id: string, decode: Json -> Result<T, string>,
    script: nat -> SessionEvent, n: nat)
    ensures var p := Pump(id, decode, script, n);
      if AllPass(id, decode, script, n) then p.drawn == n && p.state == FRESH
      else
        && 0 < p.drawn <= n && p.state.done
        && AllPass(id, decode, script, p.drawn - 1)
        && !Passes(id, decode, script(p.drawn - 1))
        && p.state == FirstRead(id, decode, script(p.drawn - 1)).0
  {
    if n > 0 {
      PumpReads(id, decode, script, n - 1);
      ReadMeans(id, decode, script(n - 1), FRESH);
      if AllPass(id, decode, script, n - 1) {
        assert AllPass(id, decode, script, n) <==> Passes(id, decode, script(n - 1));
      } else {
        assert !AllPass(id, decode, script, n);
      }
    }
  }

  lemma NextResultIs<T>(id: string, decode: Json -> Result<T, string>, script: nat -> SessionEvent, n: nat)
    ensures Pump(id, decode, script, n + 1).results
      == Pump(id, decode, script, n).results + [Expected(id, decode, script, n)]
  {
    PumpReads(id, decode, script, n);
    ReadMeans(id, decode, script(n), FRESH);
  }

  // Successive results are the items in order, then one terminal result, then
  // nothing.
  lemma {:induction false} PumpIsAFold<T>(id: string, decode: Json -> Result<T, string>,
    script: nat -> SessionEvent, n: nat)
    ensures var p := Pump(id, decode, script, n);
      |p.results| == n && forall i: nat :: i < n ==> p.results[i] == Expected(id, decode, script, i)
  {
    if n > 0 {
      PumpIsAFold(id, decode, script, n - 1);
      NextResultIs(id, decode, script, n - 1);
    }
  }
}

// Opening a stream (runtime/go/stream.go) with ids from a shared correlator
// (runtime/go/frame.go).
module OpenOnce {
  import opened Basics

  const WORD: nat := 0x1_0000_0000_0000_0000

  // ------------------------------------------------------ the code itself

  function IdText(prefix: string, value: nat): string { prefix + Decimal(value) }

  class Correlator {
    const prefix: string
    var next: nat

    ghost predicate Valid()
      reads this
    {
      next < WORD
    }

    constructor (prefix: string)
      ensures Valid() && this.prefix == prefix && next == 0
    {
      this.prefix := prefix;
      next := 0;
    }

    /** `Correlator.Take`: an atomic 64-bit increment. */
    method Take() returns (id: string)
      requires Valid()
      modifies this
      ensures Valid() && next == (old(next) + 1) % WORD && id == IdText(prefix, next)
    {
      next := (next + 1) % WORD;
      id := IdText(prefix, next);
    }
  }

  // The Rust correlator (runtime/rust/frame.rs) stops instead of wrapping.
  class CheckedCorrelator {
    const prefix: string
    var next: nat

    ghost predicate Valid()
      reads this
    {
      next < WORD
    }

    constructor (prefix: string)
      ensures Valid() && this.prefix == prefix && next == 0
    {
      this.prefix := prefix;
      next := 0;
    }

    /** `Correlator::try_take`: None when the counter is exhausted. */
    method TryTake() returns (id: Option<string>)
      requires Valid()
      modifies this
      ensures Valid()
      ensures id.None? <==> old(next) == WORD - 1
      ensures id.None? ==> next == old(next)
      ensures id.Some? ==> next == old(next) + 1 && id == Some(IdText(prefix, next))
    {
      if next + 1 == WORD {
        return None;
      }
      next := next + 1;
      id := Some(IdText(prefix, next));
    }
  }

  datatype StreamOutcome = AlreadyOpened | BadCarrier | OpenFailed | Opened(id: string)

  predicate Framed(carrier: string) { carrier == "websocket" || carrier == "tcp" }

  // `calls` logs the ids `Open` was called with, successfully or not.
  class CallBuilder {
    const correlator: Correlator
    var wasOpened: bool
    var calls: seq<string>

    constructor (correlator: Correlator)
      ensures this.correlator == correlator && !wasOpened && calls == []
    {
      this.correlator := correlator;
      wasOpened := false;
      calls := [];
    }

    /** `RpcStreamCallBuilder.Stream`, run without interruption. */
    method Stream(carrier: string, openSucceeds: bool) returns (r: StreamOutcome)
      requires correlator.Valid()
      modifies this, correlator
      ensures correlator.Valid() && wasOpened
      ensures old(wasOpened) ==> r == AlreadyOpened
      ensures !old(wasOpened) && !Framed(carrier) ==> r == BadCarrier
      ensures old(wasOpened) || !Framed(carrier) ==> calls == old(calls) && correlator.next == old(correlator.next)
      ensures !old(wasOpened) && Framed(carrier) ==>
        && correlator.next == (old(correlator.next) + 1) % WORD
        && calls == old(calls) + [IdText(correlator.prefix, correlator.next)]
        && r == if openSucceeds then Opened(IdText(correlator.prefix, correlator.next)) else OpenFailed
    {
      if wasOpened {
        return AlreadyOpened;
      }
      wasOpened := true;
      if !Framed(carrier) {
        return BadCarrier;
      }
      var id := correlator.Take();
      calls := calls + [id];
      if !openSucceeds {
        return OpenFailed;
      }
      r := Opened(id);
    }
  }

  // ------------------------------------------- the same, many threads at once

  type Thread = nat
  type Builder = nat

  // Between its atomic steps a call holds the builder whose flag it flipped,
  // and later also the counter value it took. `turn` is bookkeeping: it numbers
  // the takes from one without wrapping.
  datatype Phase = Idle | Won(builder: Builder) | Checked(builder: Builder) | Taken(builder: Builder, turn: nat, value: nat)

  datatype Call = Call(builder: Builder, turn: nat, id: string)

  datatype System = System(
    prefix: string, next: nat, takes: nat, wasOpened: set<Builder>, phases: map<Thread, Phase>, log: seq<Call>)

  datatype Step =
    | CompareAndSwap(who: Thread, builder: Builder)
    | CheckCarrier(who: Thread, carrier: string)
    | TakeId(who: Thread)
    | Open(who: Thread)

  function Start(prefix: string): System { System(prefix, 0, 0, {}, map[], []) }

  function PhaseOf(s: System, who: Thread): Phase {
    if who in s.phases then s.phases[who] else Idle
  }

  predicate Enabled(s: System, step: Step) {
    match step
    case CompareAndSwap(w, _) => PhaseOf(s, w).Idle?
    case CheckCarrier(w, _) => PhaseOf(s, w).Won?
    case TakeId(w) => PhaseOf(s, w).Checked?
    case Open(w) => PhaseOf(s, w).Taken?
  }

  function Apply(s: System, step: Step): System
    requires Enabled(s, step)
  {
    match step
    case CompareAndSwap(w, b) =>
      if b in s.wasOpened then s
      else s.(wasOpened := s.wasOpened + {b}, phases := s.phases[w := Won(b)])
    case CheckCarrier(w, carrier) =>
      if Framed(carrier) then s.(phases := s.phases[w := Checked(PhaseOf(s, w).builder)])
      else s.(phases := s.phases[w := Idle])
    case TakeId(w) =>
      s.(next := (s.next + 1) % WORD, takes := s.takes + 1,
         phases := s.phases[w := Taken(PhaseOf(s, w).builder, s.takes + 1, (s.next + 1) % WORD)])
    case Open(w) =>
      var p := PhaseOf(s, w);
      s.(phases := s.phases[w := Idle],
         log := s.log + [Call(p.builder, p.turn, IdText(s.prefix, p.value))])
  }

  predicate Possible(s: System, steps: seq<Step>)
    decreases |steps|
  {
    steps == [] || (Enabled(s, steps[0]) && Possible(Apply(s, steps[0]), steps[1..]))
  }

  function Run(s: System, steps: seq<Step>): System
    requires Possible(s, steps)
    decreases |steps|
  {
    if steps == [] then s else Run(Apply(s, steps[0]), steps[1..])
  }

  // ------------------------------------------------------------ invariants

  // A builder is held by one thread or logged once, never both, and only after
  // its flag was flipped.
  ghost predicate HeldOnce(s: System) {
    && (forall w :: w in s.phases && !s.phases[w].Idle? ==> s.phases[w].builder in s.wasOpened)
    && (forall v, w :: v in s.phases && w in s.phases && v != w && !s.phases[v].Idle? && !s.phases[w].Idle? ==>
          s.phases[v].builder != s.phases[w].builder)
    && (forall i :: 0 <= i < |s.log| ==> s.log[i].builder in s.wasOpened)
    && (forall i, w :: 0 <= i < |s.log| && w in s.phases && !s.phases[w].Idle? ==>
          s.log[i].builder != s.phases[w].builder)
    && (forall i, j :: 0 <= i < j < |s.log| ==> s.log[i].builder != s.log[j].builder)
  }

  // The same for turns, which the counter hands out one by one.
  ghost predicate TurnsOnce(s: System) {
    && (forall w :: w in s.phases && s.phases[w].Taken? ==> 1 <= s.phases[w].turn <= s.takes)
    && (forall v, w :: v in s.phases && w in s.phases && v != w && s.phases[v].Taken? && s.phases[w].Taken? ==>
          s.phases[v].turn != s.phases[w].turn)
    && (forall i :: 0 <= i < |s.log| ==> 1 <= s.log[i].turn <= s.takes)
    && (forall i, w :: 0 <= i < |s.log| && w in s.phases && s.phases[w].Taken? ==>
          s.log[i].turn != s.phases[w].turn)
    && (forall i, j :: 0 <= i < j < |s.log| ==> s.log[i].turn != s.log[j].turn)
  }

  // The counter, and every value taken from it, is its turn modulo 2^64.
  ghost predicate ValuesWrap(s: System) {
    && s.next == Wrap(s.takes)
    && (forall w :: w in s.phases && s.phases[w].Taken? ==> s.phases[w].value == Wrap(s.phases[w].turn))
    && (forall i :: 0 <= i < |s.log| ==> s.log[i].id == IdText(s.prefix, Wrap(s.log[i].turn)))
  }

  function Wrap(n: nat): nat { n % WORD }

  lemma StepHolds(s: System, step: Step)
    requires HeldOnce(s) && Enabled(s, step)
    ensures HeldOnce(Apply(s, step))
  {}

  lemma NextTurn(takes: nat)
    ensures (Wrap(takes) + 1) % WORD == Wrap(takes + 1)
  {}

  lemma OpenTurns(s: System, w: Thread)
    requires TurnsOnce(s) && Enabled(s, Open(w))
    ensures TurnsOnce(Apply(s, Open(w)))
  {
    var f := Apply(s, Open(w));
    var last := f.log[|s.log|];
    assert f.log == s.log + [last] && last.turn == s.phases[w].turn;
    assert forall v :: v in f.phases && f.phases[v].Taken? ==> v != w && v in s.phases && f.phases[v] == s.phases[v];
    forall i | 0 <= i < |s.log| ensures s.log[i].turn != last.turn {
    }
  }

  lemma TakeTurns(s: System, w: Thread)
    requires TurnsOnce(s) && Enabled(s, TakeId(w))
    ensures TurnsOnce(Apply(s, TakeId(w)))
  {
    var f := Apply(s, TakeId(w));
    assert f.log == s.log && f.phases[w].turn == s.takes + 1;
    assert forall v :: v in f.phases && v != w ==> v in s.phases && f.phases[v] == s.phases[v];
  }

  lemma StepTurns(s: System, step: Step)
    requires TurnsOnce(s) && Enabled(s, step)
    ensures TurnsOnce(Apply(s, step))
  {
    match step
    case Open(w) => OpenTurns(s, w);
    case TakeId(w) => TakeTurns(s, w);
    case _ =>
      var f := Apply(s, step);
      assert f.log == s.log && f.takes == s.takes;
      assert forall v :: v in f.phases && f.phases[v].Taken? ==> v in s.phases && f.phases[v] == s.phases[v];
  }

  lemma StepValues(s: System, step: Step)
    requires ValuesWrap(s) && Enabled(s, step)
    ensures ValuesWrap(Apply(s, step))
  {
    NextTurn(s.takes);
  }

  lemma {:induction false} RunHolds(s: System, steps: seq<Step>)
    requires HeldOnce(s) && TurnsOnce(s) && ValuesWrap(s) && Possible(s, steps)
    ensures var f := Run(s, steps); HeldOnce(f) && TurnsOnce(f) && ValuesWrap(f) && f.prefix == s.prefix
    decreases |steps|
  {
    if steps != [] {
      StepHolds(s, steps[0]);
      StepTurns(s, steps[0]);
      StepValues(s, steps[0]);
      RunHolds(Apply(s, steps[0]), steps[1..]);
    }
  }

  lemma IdTextSeparates(prefix: string, a: nat, b: nat)
    requires IdText(prefix, a) == IdText(prefix, b)
    ensures a == b
  {
    DecimalReadsBack(a);
    DecimalReadsBack(b);
    assert IdText(prefix, a)[|prefix|..] == Decimal(a);
    assert IdText(prefix, b)[|prefix|..] == Decimal(b);
  }

  /** The steps of one call that nothing comes between. */
  function WholeCall(s: System, w: Thread, b: Builder, carrier: string): seq<Step> {
    if b in s.wasOpened then [CompareAndSwap(w, b)]
    else if !Framed(carrier) then [CompareAndSwap(w, b), CheckCarrier(w, carrier)]
    else [CompareAndSwap(w, b), CheckCarrier(w, carrier), TakeId(w), Open(w)]
  }

  // A thread taking its steps in a row does what `CallBuilder.Stream` does in
  // one: nothing for an opened builder, only the flag for a wrong carrier, and
  // otherwise one call of `Open` with the next id.
  lemma UninterruptedStream(s: System, w: Thread, b: Builder, carrier: string)
    requires PhaseOf(s, w).Idle?
    ensures Possible(s, WholeCall(s, w, b, carrier))
    ensures var f := Run(s, WholeCall(s, w, b, carrier));
      && f.wasOpened == s.wasOpened + {b} && PhaseOf(f, w).Idle?
      && (b in s.wasOpened || !Framed(carrier) ==> f.next == s.next && f.log == s.log)
      && (b !in s.wasOpened && Framed(carrier) ==>
            && f.next == (s.next + 1) % WORD
            && f.log == s.log + [Call(b, s.takes + 1, IdText(s.prefix, f.next))])
  {
    var steps := WholeCall(s, w, b, carrier);
    var s1 := Apply(s, steps[0]);
    assert Possible(s1, []) && Run(s1, []) == s1;
    if b in s.wasOpened {
      assert steps[1..] == [];
    } else {
      var s2 := Apply(s1, steps[1]);
      assert Possible(s2, []) && Run(s2, []) == s2;
      if !Framed(carrier) {
        assert steps[1..] == [steps[1]] && [steps[1]][1..] == [];
        assert Possible(s1, [steps[1]]) && Run(s1, [steps[1]]) == s2;
      } else {
        TakeAndOpen(s2, w, b);
        assert steps[1..] == [steps[1]] + [TakeId(w), Open(w)];
        assert steps[1..][1..] == [TakeId(w), Open(w)];
        assert Run(s1, steps[1..]) == Run(s2, [TakeId(w), Open(w)]);
      }
    }
  }

  lemma TakeAndOpen(s: System, w: Thread, b: Builder)
    requires PhaseOf(s, w) == Checked(b)
    ensures Possible(s, [TakeId(w), Open(w)])
    ensures var f := Run(s, [TakeId(w), Open(w)]);
      && f.wasOpened == s.wasOpened && PhaseOf(f, w).Idle? && f.next == (s.next + 1) % WORD
      && f.log == s.log + [Call(b, s.takes + 1, IdText(s.prefix, f.next))]
  {
    var s3 := Apply(s, TakeId(w));
    var f := Apply(s3, Open(w));
    assert [TakeId(w), Open(w)][1..] == [Open(w)] && [Open(w)][1..] == [];
    assert Possible(f, []) && Run(f, []) == f;
    assert Possible(s3, [Open(w)]) && Run(s3, [Open(w)]) == f;
  }

  // ---------------------------------------------------------- main results

  // Whatever the threads and their interleaving, `Open` is called at most once
  // a builder.
  lemma OpenedAtMostOnce(prefix: string, steps: seq<Step>, i: nat, j: nat)
    requires Possible(Start(prefix), steps)
    requires i < j < |Run(Start(prefix), steps).log|
    ensures var log := Run(Start(prefix), steps).log; log[i].builder != log[j].builder
  {
    RunHolds(Start(prefix), steps);
  }

  // Two calls carry the same correlation id exactly when their turns differ by
  // a multiple of 2^64.
  lemma IdsRepeatOnlyByWrapping(prefix: string, steps: seq<Step>, i: nat, j: nat)
    requires Possible(Start(prefix), steps)
    requires i < j < |Run(Start(prefix), steps).log|
    ensures var log := Run(Start(prefix), steps).log;
      && log[i].turn != log[j].turn
      && (log[i].id == log[j].id <==> Wrap(log[i].turn) == Wrap(log[j].turn))
  {
    RunHolds(Start(prefix), steps);
    var log := Run(Start(prefix), steps).log;
    if log[i].id == log[j].id {
      IdTextSeparates(prefix, Wrap(log[i].turn), Wrap(log[j].turn));
    }
  }

  lemma SmallTurns(a: nat, b: nat, takes: nat)
    requires 1 <= a <= takes && 1 <= b <= takes && takes <= WORD && Wrap(a) == Wrap(b)
    ensures a == b
  {}

  // Up to 2^64 takes all correlation ids passed to `Open` are different.
  lemma IdsAreDistinct(prefix: string, steps: seq<Step>, i: nat, j: nat)
    requires Possible(Start(prefix), steps)
    requires Run(Start(prefix), steps).takes <= WORD
    requires i < j < |Run(Start(prefix), steps).log|
    ensures var log := Run(Start(prefix), steps).log; log[i].id != log[j].id
  {
    RunHolds(Start(prefix), steps);
    IdsRepeatOnlyByWrapping(prefix, steps, i, j);
    var f := Run(Start(prefix), steps);
    if Wrap(f.log[i].turn) == Wrap(f.log[j].turn) {
      SmallTurns(f.log[i].turn, f.log[j].turn, f.takes);
    }
  }
}

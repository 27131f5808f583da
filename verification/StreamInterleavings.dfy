// `Next` and `Cancel` called from several threads (runtime/go/stream.go). The
// methods hold no lock, so a call has three moments: it begins and checks the
// stream's flags, it asks the session, and it finishes with the session's
// answer. Any number of calls can be between these.
module StreamInterleavings {
  import opened Basics
  import opened StreamClient

  type Thread = nat

  datatype Call = NextCall | CancelCall

  // When calls begin, ask and finish; nothing here depends on what they do. A
  // call that returns at its check has the other two moments for nothing.
  datatype Tick = Begin(who: Thread, call: Call) | Ask(who: Thread) | Finish(who: Thread)

  // What the session answers a call that finishes, if it was asked.
  datatype Answer<+T> = Answer(meaning: Meaning<T>, refused: Option<string>)

  // ----------------------------------------------------------- schedules

  datatype Stage = Stage(call: Call, asked: bool)

  type Calls = map<Thread, Stage>

  /** The calls under way after a tick. */
  function Track(open: Calls, tick: Tick): Calls {
    match tick
    case Begin(w, call) => open[w := Stage(call, false)]
    case Ask(w) => if w in open then open[w := open[w].(asked := true)] else open
    case Finish(w) => open - {w}
  }

  /** A thread makes one call after the other, each in its three moments. */
  predicate Due(open: Calls, tick: Tick) {
    match tick
    case Begin(w, _) => w !in open
    case Ask(w) => w in open && !open[w].asked
    case Finish(w) => w in open && open[w].asked
  }

  predicate InTurn(open: Calls, ticks: seq<Tick>)
    decreases |ticks|
  {
    ticks == [] || (Due(open, ticks[0]) && InTurn(Track(open, ticks[0]), ticks[1..]))
  }

  /** The same, and every call finishes. */
  predicate Complete(open: Calls, ticks: seq<Tick>)
    decreases |ticks|
  {
    if ticks == [] then open == map[]
    else Due(open, ticks[0]) && Complete(Track(open, ticks[0]), ticks[1..])
  }

  lemma {:induction false} CompleteInTurn(open: Calls, ticks: seq<Tick>)
    requires Complete(open, ticks)
    ensures InTurn(open, ticks)
    decreases |ticks|
  {
    if ticks != [] {
      CompleteInTurn(Track(open, ticks[0]), ticks[1..]);
    }
  }

  /** A call begins while another one, of the given kinds, is under way. */
  ghost predicate Overlap(open: Calls, ticks: seq<Tick>, clash: (Call, Call) -> bool)
    decreases |ticks|
  {
    ticks != []
    && (Meets(open, ticks[0], clash) || Overlap(Track(open, ticks[0]), ticks[1..], clash))
  }

  ghost predicate Meets(open: Calls, tick: Tick, clash: (Call, Call) -> bool) {
    tick.Begin? && exists v :: v in open && v != tick.who && clash(open[v].call, tick.call)
  }

  /** Two cancellations. */
  function Cancels(): (Call, Call) -> bool {
    (a: Call, b: Call) => a.CancelCall? && b.CancelCall?
  }

  /** A `Next` and any other call. */
  function ANext(): (Call, Call) -> bool {
    (a: Call, b: Call) => a.NextCall? || b.NextCall?
  }

  /** A call finishes while another one, a `Next`, has checked and not asked. */
  ghost predicate Overtaking(open: Calls, ticks: seq<Tick>)
    decreases |ticks|
  {
    ticks != []
    && (Overtakes(open, ticks[0]) || Overtaking(Track(open, ticks[0]), ticks[1..]))
  }

  ghost predicate Overtakes(open: Calls, tick: Tick) {
    tick.Finish? && exists w :: w in open && w != tick.who && open[w] == Stage(NextCall, false)
  }

  // ---------------------------------------------------------------- runs

  // `active` holds the calls that passed their check. `asks` counts session
  // reads begun, `late` those begun with the stream done, `confirmed`
  // successful session cancellations.
  datatype System = System(client: State, active: Calls, asks: nat, late: nat, confirmed: nat)

  const START := System(FRESH, map[], 0, 0, 0)

  predicate Refuses(client: State, call: Call) {
    if call.NextCall? then client.done else client.ended || client.cancelled
  }

  function Asked(s: System, w: Thread): System
    requires w in s.active
  {
    var read := s.active[w].call.NextCall?;
    s.(active := s.active[w := s.active[w].(asked := true)],
       asks := s.asks + if read then 1 else 0,
       late := s.late + if read && s.client.done then 1 else 0)
  }

  function Finished<T>(s: System, w: Thread, a: Answer<T>): System
    requires w in s.active
  {
    if s.active[w].call.NextCall? then
      s.(client := AfterRead(s.client, a.meaning).0, active := s.active - {w})
    else
      s.(client := AfterCancel(s.client, a.refused), active := s.active - {w},
         confirmed := s.confirmed + if a.refused.None? then 1 else 0)
  }

  /** What the code does at a tick. A call whose check failed has returned. */
  function Apply<T>(s: System, tick: Tick, a: Answer<T>): System {
    match tick
    case Begin(w, call) =>
      if Refuses(s.client, call) then s else s.(active := s.active[w := Stage(call, false)])
    case Ask(w) => if w in s.active && !s.active[w].asked then Asked(s, w) else s
    case Finish(w) => if w in s.active && s.active[w].asked then Finished(s, w, a) else s
  }

  function Run<T>(s: System, ticks: seq<Tick>, answers: seq<Answer<T>>): System
    requires |answers| == |ticks|
    decreases |ticks|
  {
    if ticks == [] then s else Run(Apply(s, ticks[0], answers[0]), ticks[1..], answers[1..])
  }

  // A call that nothing comes between does what the method does.
  lemma WholeCall<T>(s: System, w: Thread, call: Call, a: Answer<T>)
    requires w !in s.active
    ensures var f := Apply(Apply(Apply(s, Begin(w, call), a), Ask(w), a), Finish(w), a);
      && f.active == s.active && f.late == s.late
      && f.asks == s.asks + (if call.NextCall? && !s.client.done then 1 else 0)
      && f.client
           == match call
              case NextCall => if s.client.done then s.client else AfterRead(s.client, a.meaning).0
              case CancelCall =>
                if s.client.ended || s.client.cancelled then s.client else AfterCancel(s.client, a.refused)
  {
    var begun := Apply(s, Begin(w, call), a);
    if !Refuses(s.client, call) {
      assert Apply(begun, Ask(w), a).active - {w} == s.active;
    }
  }

  // ------------------------------------------------- every interleaving

  ghost predicate Safe(s: System) {
    s.client.ended || s.client.cancelled ==> s.client.done
  }

  // No call of `Next` is between its check and its asking.
  ghost predicate NoneChecked(s: System) {
    forall w :: w in s.active ==> s.active[w] != Stage(NextCall, false)
  }

  // Under any interleaving either flag implies done, flags and done are
  // permanent, and once the stream is done only calls of `Next` that had
  // already checked it can still read.
  lemma {:induction false} EveryInterleaving<T>(s: System, ticks: seq<Tick>, answers: seq<Answer<T>>)
    requires Safe(s) && |answers| == |ticks|
    ensures var f := Run(s, ticks, answers);
      && Safe(f)
      && (s.client.ended ==> f.client.ended)
      && (s.client.cancelled ==> f.client.cancelled)
      && (s.client.done ==> f.client.done)
      && (s.client.done && NoneChecked(s) ==> f.asks == s.asks)
      && s.asks <= f.asks && s.late <= f.late && s.confirmed <= f.confirmed
    decreases |ticks|
  {
    if ticks != [] {
      EveryInterleaving(Apply(s, ticks[0], answers[0]), ticks[1..], answers[1..]);
    }
  }

  // A call that passed its check is the one its thread has under way.
  ghost predicate Matched(s: System, open: Calls) {
    forall w :: w in s.active ==> w in open && s.active[w] == open[w]
  }

  lemma MatchedStep<T>(s: System, open: Calls, tick: Tick, a: Answer<T>)
    requires Matched(s, open) && Due(open, tick)
    ensures Matched(Apply(s, tick, a), Track(open, tick))
  {}

  ghost predicate Under(s: System, w: Thread, call: Call) {
    w in s.active && s.active[w].call == call
  }

  // ------------------------------------ confirmed at most once, and when not

  ghost predicate OneCancel(s: System) {
    && s.confirmed <= 1
    && (forall v, w :: Under(s, v, CancelCall) && Under(s, w, CancelCall) ==> v == w)
    && (s.confirmed == 1 ==> s.client.cancelled && forall w :: !Under(s, w, CancelCall))
  }

  // Only a beginning can add a call to those of its kind.
  lemma UnderStep<T>(s: System, tick: Tick, a: Answer<T>)
    ensures forall w, call :: Under(Apply(s, tick, a), w, call) ==>
      Under(s, w, call) || (tick == Begin(w, call) && !Refuses(s.client, call))
    ensures tick.Finish? && tick.who in s.active && s.active[tick.who].asked ==>
      tick.who !in Apply(s, tick, a).active
  {}

  lemma OneCancelStep<T>(s: System, open: Calls, tick: Tick, a: Answer<T>)
    requires OneCancel(s) && Matched(s, open) && !Meets(open, tick, Cancels()) && Due(open, tick)
    ensures OneCancel(Apply(s, tick, a))
  {
    UnderStep(s, tick, a);
    if tick.Begin? && tick.call.CancelCall? {
      forall v ensures !Under(s, v, CancelCall) {
        if v in open && v != tick.who {
          assert !Cancels()(open[v].call, tick.call);
        }
      }
    }
    if tick.Finish? && Under(s, tick.who, CancelCall) {
      assert s.confirmed == 0;
    }
  }

  lemma {:induction false} ConfirmedOnce<T>(s: System, open: Calls, ticks: seq<Tick>, answers: seq<Answer<T>>)
    requires |answers| == |ticks| && InTurn(open, ticks) && !Overlap(open, ticks, Cancels())
    requires OneCancel(s) && Matched(s, open)
    ensures Run(s, ticks, answers).confirmed <= 1
    decreases |ticks|
  {
    if ticks != [] {
      OneCancelStep(s, open, ticks[0], answers[0]);
      MatchedStep(s, open, ticks[0], answers[0]);
      ConfirmedOnce(Apply(s, ticks[0], answers[0]), Track(open, ticks[0]), ticks[1..], answers[1..]);
    }
  }

  // Nothing has happened to the stream yet: every call under way passed.
  ghost predicate Untouched(s: System, open: Calls) {
    && !s.client.ended && !s.client.cancelled && !s.client.done
    && s.active == open
  }

  /** Items for readers, refusals for the rest: the stream goes on. */
  function GoOn<T>(item: T): Answer<T> { Answer(Pass(item), Some("")) }

  lemma UntouchedStep<T>(s: System, open: Calls, tick: Tick, item: T)
    requires Untouched(s, open) && Due(open, tick)
    ensures Untouched(Apply(s, tick, GoOn(item)), Track(open, tick))
  {}

  // From here on every cancellation is confirmed.
  function Confirm<T>(n: nat, item: T): (r: seq<Answer<T>>)
    ensures |r| == n && forall i :: 0 <= i < n ==> r[i] == Answer(Pass(item), None)
  {
    if n == 0 then [] else [Answer(Pass(item), None)] + Confirm(n - 1, item)
  }

  ghost function Pending(s: System, w: Thread): nat {
    if Under(s, w, CancelCall) then 1 else 0
  }

  lemma {:induction false} BothConfirm<T>(s: System, open: Calls, ticks: seq<Tick>, v: Thread, w: Thread, item: T)
    requires v != w && Complete(open, ticks) && Matched(s, open)
    ensures Run(s, ticks, Confirm(|ticks|, item)).confirmed >= s.confirmed + Pending(s, v) + Pending(s, w)
    decreases |ticks|
  {
    if ticks != [] {
      var a := Answer(Pass(item), None);
      MatchedStep(s, open, ticks[0], a);
      BothConfirm(Apply(s, ticks[0], a), Track(open, ticks[0]), ticks[1..], v, w, item);
    }
  }

  // Where two cancellations overlap, a session can confirm both: it lets
  // everything before them go on.
  lemma {:induction false} ConfirmTwice<T>(s: System, open: Calls, ticks: seq<Tick>, item: T)
    returns (answers: seq<Answer<T>>)
    requires Complete(open, ticks) && Overlap(open, ticks, Cancels()) && Untouched(s, open)
    ensures |answers| == |ticks| && Run(s, ticks, answers).confirmed >= 2
    decreases |ticks|
  {
    var tick, rest := ticks[0], ticks[1..];
    var next := Apply(s, tick, GoOn(item));
    UntouchedStep(s, open, tick, item);
    var tail;
    if Meets(open, tick, Cancels()) {
      var v :| v in open && v != tick.who && Cancels()(open[v].call, tick.call);
      tail := Confirm(|rest|, item);
      assert Under(next, v, CancelCall) && Under(next, tick.who, CancelCall);
      BothConfirm(next, Track(open, tick), rest, v, tick.who, item);
    } else {
      tail := ConfirmTwice(next, Track(open, tick), rest, item);
    }
    answers := [GoOn(item)] + tail;
    assert answers[1..] == tail;
  }

  // The session's cancellation can succeed more than once exactly on the
  // schedules in which two calls of `Cancel` overlap, however calls of `Next`
  // overlap them or each other.
  lemma ConfirmedTwiceIffCancelsOverlap<T>(ticks: seq<Tick>, item: T)
    requires Complete(map[], ticks)
    ensures (exists answers: seq<Answer<T>> :: |answers| == |ticks| && Run(START, ticks, answers).confirmed > 1)
      <==> Overlap(map[], ticks, Cancels())
  {
    if Overlap(map[], ticks, Cancels()) {
      var answers := ConfirmTwice(START, map[], ticks, item);
      assert Run(START, ticks, answers).confirmed > 1;
    } else {
      CompleteInTurn(map[], ticks);
      forall answers: seq<Answer<T>> | |answers| == |ticks| ensures Run(START, ticks, answers).confirmed <= 1 {
        ConfirmedOnce(START, map[], ticks, answers);
      }
    }
  }

  // --------------------------------- ended and cancelled together, and when

  ghost predicate Both(s: System) { s.client.ended && s.client.cancelled }

  // While no reader has company: it alone is under way, on an open stream, and
  // cancellations under way have not seen the end.
  ghost predicate LoneReaders(s: System) {
    && Safe(s) && !Both(s)
    && (forall w :: Under(s, w, NextCall) ==> !s.client.done && forall v :: v in s.active ==> v == w)
    && (forall w :: Under(s, w, CancelCall) ==> !s.client.ended)
  }

  lemma LoneReadersStep<T>(s: System, open: Calls, tick: Tick, a: Answer<T>)
    requires LoneReaders(s) && Matched(s, open) && !Meets(open, tick, ANext()) && Due(open, tick)
    ensures LoneReaders(Apply(s, tick, a))
  {
    var f := Apply(s, tick, a);
    UnderStep(s, tick, a);
    assert forall v :: v in f.active ==> v in s.active || (tick.Begin? && v == tick.who);
    if tick.Begin? {
      forall v | v in s.active ensures !tick.call.NextCall? && !Under(s, v, NextCall) {
        assert v in open && v != tick.who && !ANext()(open[v].call, tick.call);
      }
    } else if tick.who in s.active {
      assert Under(s, tick.who, s.active[tick.who].call);
    }
  }

  lemma {:induction false} NeverBoth<T>(s: System, open: Calls, ticks: seq<Tick>, answers: seq<Answer<T>>)
    requires |answers| == |ticks| && InTurn(open, ticks) && !Overlap(open, ticks, ANext())
    requires LoneReaders(s) && Matched(s, open)
    ensures !Both(Run(s, ticks, answers))
    decreases |ticks|
  {
    if ticks != [] {
      LoneReadersStep(s, open, ticks[0], answers[0]);
      MatchedStep(s, open, ticks[0], answers[0]);
      NeverBoth(Apply(s, ticks[0], answers[0]), Track(open, ticks[0]), ticks[1..], answers[1..]);
    }
  }

  // Two calls that overlap can be answered so that one ends the stream and the
  // other cancels it: `v` under way, `w` joining it.
  function Split<T>(tick: Tick, v: Thread, w: Thread, vEnds: bool, item: T): Answer<T> {
    if tick.who == v then Answer(EndMark, None)
    else if tick.who == w then Answer(if vEnds then CancelMark else EndMark, None)
    else GoOn(item)
  }

  function SplitAll<T>(ticks: seq<Tick>, v: Thread, w: Thread, vEnds: bool, item: T): (r: seq<Answer<T>>)
    ensures |r| == |ticks|
  {
    if ticks == [] then [] else [Split(ticks[0], v, w, vEnds, item)] + SplitAll(ticks[1..], v, w, vEnds, item)
  }

  /** The flag is set, or a call that will set it is under way. */
  ghost predicate Bound(s: System, w: Thread, ends: bool, reading: bool) {
    (if ends then s.client.ended else s.client.cancelled)
    || Under(s, w, if reading then NextCall else CancelCall)
  }

  lemma {:induction false} BothFlagsCome<T>(s: System, open: Calls, ticks: seq<Tick>,
      v: Thread, w: Thread, vEnds: bool, wReads: bool, item: T)
    requires v != w && Complete(open, ticks) && Matched(s, open)
    requires vEnds || wReads
    requires Bound(s, v, vEnds, vEnds) && Bound(s, w, !vEnds, wReads)
    ensures Both(Run(s, ticks, SplitAll(ticks, v, w, vEnds, item)))
    decreases |ticks|
  {
    if ticks != [] {
      var a := Split(ticks[0], v, w, vEnds, item);
      MatchedStep(s, open, ticks[0], a);
      BothFlagsCome(Apply(s, ticks[0], a), Track(open, ticks[0]), ticks[1..], v, w, vEnds, wReads, item);
    }
  }

  lemma {:induction false} EndAndCancel<T>(s: System, open: Calls, ticks: seq<Tick>, item: T)
    returns (answers: seq<Answer<T>>)
    requires Complete(open, ticks) && Overlap(open, ticks, ANext()) && Untouched(s, open)
    ensures |answers| == |ticks| && Both(Run(s, ticks, answers))
    decreases |ticks|
  {
    var tick, rest := ticks[0], ticks[1..];
    var next := Apply(s, tick, GoOn(item));
    UntouchedStep(s, open, tick, item);
    var tail;
    if Meets(open, tick, ANext()) {
      var v :| v in open && v != tick.who && ANext()(open[v].call, tick.call);
      var vEnds := open[v].call.NextCall?;
      tail := SplitAll(rest, v, tick.who, vEnds, item);
      assert Under(next, v, open[v].call) && Under(next, tick.who, tick.call);
      BothFlagsCome(next, Track(open, tick), rest, v, tick.who, vEnds, tick.call.NextCall?, item);
    } else {
      tail := EndAndCancel(next, Track(open, tick), rest, item);
    }
    answers := [GoOn(item)] + tail;
    assert answers[1..] == tail;
  }

  // A stream can come out both ended and cancelled exactly on the schedules in
  // which a call of `Next` overlaps another call, be it a `Next` or a `Cancel`.
  lemma BothIffNextOverlaps<T>(ticks: seq<Tick>, item: T)
    requires Complete(map[], ticks)
    ensures (exists answers: seq<Answer<T>> :: |answers| == |ticks| && Both(Run(START, ticks, answers)))
      <==> Overlap(map[], ticks, ANext())
  {
    if Overlap(map[], ticks, ANext()) {
      var answers := EndAndCancel(START, map[], ticks, item);
      assert Both(Run(START, ticks, answers));
    } else {
      CompleteInTurn(map[], ticks);
      forall answers: seq<Answer<T>> | |answers| == |ticks| ensures !Both(Run(START, ticks, answers)) {
        NeverBoth(START, map[], ticks, answers);
      }
    }
  }

  // -------------------------------------------- reading a stream that is done

  // Nobody who has checked the stream and not yet asked finds it done.
  ghost predicate Timely(s: System) {
    s.late == 0 && (s.client.done ==> NoneChecked(s))
  }

  lemma TimelyStep<T>(s: System, open: Calls, tick: Tick, a: Answer<T>)
    requires Timely(s) && Matched(s, open) && !Overtakes(open, tick) && Due(open, tick)
    ensures Timely(Apply(s, tick, a))
  {
    var f := Apply(s, tick, a);
    if tick.Finish? {
      forall w | w in f.active ensures f.active[w] != Stage(NextCall, false) {
        assert w in open && w != tick.who && open[w] == s.active[w];
      }
    }
  }

  lemma {:induction false} NeverLate<T>(s: System, open: Calls, ticks: seq<Tick>, answers: seq<Answer<T>>)
    requires |answers| == |ticks| && InTurn(open, ticks) && !Overtaking(open, ticks)
    requires Timely(s) && Matched(s, open)
    ensures Run(s, ticks, answers).late == 0
    decreases |ticks|
  {
    if ticks != [] {
      TimelyStep(s, open, ticks[0], answers[0]);
      MatchedStep(s, open, ticks[0], answers[0]);
      NeverLate(Apply(s, ticks[0], answers[0]), Track(open, ticks[0]), ticks[1..], answers[1..]);
    }
  }

  // A `Next` that has checked a stream now done will read it, whatever the
  // session answers.
  lemma {:induction false} WillReadLate<T>(s: System, open: Calls, ticks: seq<Tick>, answers: seq<Answer<T>>, w: Thread)
    requires |answers| == |ticks| && Complete(open, ticks) && Matched(s, open)
    requires s.client.done && w in s.active && s.active[w] == Stage(NextCall, false)
    ensures Run(s, ticks, answers).late > 0
    decreases |ticks|
  {
    var next := Apply(s, ticks[0], answers[0]);
    MatchedStep(s, open, ticks[0], answers[0]);
    if ticks[0] == Ask(w) {
      LateStays(next, ticks[1..], answers[1..]);
    } else {
      WillReadLate(next, Track(open, ticks[0]), ticks[1..], answers[1..], w);
    }
  }

  lemma {:induction false} LateStays<T>(s: System, ticks: seq<Tick>, answers: seq<Answer<T>>)
    requires |answers| == |ticks|
    ensures Run(s, ticks, answers).late >= s.late
    decreases |ticks|
  {
    if ticks != [] {
      LateStays(Apply(s, ticks[0], answers[0]), ticks[1..], answers[1..]);
    }
  }

  // Where a call overtakes a `Next`, a session can end the stream at just that
  // moment: it lets everything before go on.
  lemma {:induction false} ReadLate<T>(s: System, open: Calls, ticks: seq<Tick>, item: T)
    returns (answers: seq<Answer<T>>)
    requires Complete(open, ticks) && Overtaking(open, ticks) && Untouched(s, open)
    ensures |answers| == |ticks| && Run(s, ticks, answers).late > 0
    decreases |ticks|
  {
    var tick, rest := ticks[0], ticks[1..];
    var tail, a;
    if Overtakes(open, tick) {
      var w :| w in open && w != tick.who && open[w] == Stage(NextCall, false);
      a := Answer(EndMark, None);
      tail := Confirm(|rest|, item);
      MatchedStep(s, open, tick, a);
      WillReadLate(Apply(s, tick, a), Track(open, tick), rest, tail, w);
    } else {
      a := GoOn(item);
      UntouchedStep(s, open, tick, item);
      tail := ReadLate(Apply(s, tick, a), Track(open, tick), rest, item);
    }
    answers := [a] + tail;
    assert answers[1..] == tail;
  }

  // The session can be asked for a frame of a stream that is done exactly on
  // the schedules in which some call finishes between another's, a `Next`'s,
  // check and its asking.
  lemma LateReadIffOvertaking<T>(ticks: seq<Tick>, item: T)
    requires Complete(map[], ticks)
    ensures (exists answers: seq<Answer<T>> :: |answers| == |ticks| && Run(START, ticks, answers).late > 0)
      <==> Overtaking(map[], ticks)
  {
    if Overtaking(map[], ticks) {
      var answers := ReadLate(START, map[], ticks, item);
      assert Run(START, ticks, answers).late > 0;
    } else {
      CompleteInTurn(map[], ticks);
      forall answers: seq<Answer<T>> | |answers| == |ticks| ensures Run(START, ticks, answers).late == 0 {
        NeverLate(START, map[], ticks, answers);
      }
    }
  }

  // ------------------------------------------------------- the failing runs

  function Repeat<T>(n: nat, a: Answer<T>): (r: seq<Answer<T>>)
    ensures |r| == n && forall i :: 0 <= i < n ==> r[i] == a
  {
    if n == 0 then [] else [a] + Repeat(n - 1, a)
  }

  lemma RunStep<T>(s: System, tick: Tick, ticks: seq<Tick>, a: Answer<T>)
    ensures Run(s, [tick] + ticks, Repeat(1 + |ticks|, a)) == Run(Apply(s, tick, a), ticks, Repeat(|ticks|, a))
  {
    assert ([tick] + ticks)[1..] == ticks;
    assert Repeat(1 + |ticks|, a)[1..] == Repeat(|ticks|, a);
  }

  // The six ticks of two calls, under one answer.
  lemma SixTicks<T>(a: Tick, b: Tick, c: Tick, d: Tick, e: Tick, f: Tick, x: Answer<T>)
    ensures Run(START, [a, b, c, d, e, f], Repeat(6, x))
      == Apply(Apply(Apply(Apply(Apply(Apply(START, a, x), b, x), c, x), d, x), e, x), f, x)
  {
    var s1 := Apply(START, a, x);
    var s2 := Apply(s1, b, x);
    var s3 := Apply(s2, c, x);
    var s4 := Apply(s3, d, x);
    var s5 := Apply(s4, e, x);
    assert [a, b, c, d, e, f] == [a] + [b, c, d, e, f] && [b, c, d, e, f] == [b] + [c, d, e, f];
    assert [c, d, e, f] == [c] + [d, e, f] && [d, e, f] == [d] + [e, f] && [e, f] == [e] + [f] && [f] == [f] + [];
    RunStep(START, a, [b, c, d, e, f], x);
    RunStep(s1, b, [c, d, e, f], x);
    RunStep(s2, c, [d, e, f], x);
    RunStep(s3, d, [e, f], x);
    RunStep(s4, e, [f], x);
    RunStep(s5, f, [], x);
  }

  // A `Next` waits for the session while a `Cancel` completes, and then
  // receives the end frame.
  lemma OverlapSetsBoth(ticks: seq<Tick>, answer: Answer<bool>)
    requires ticks == [Begin(0, NextCall), Ask(0), Begin(1, CancelCall), Ask(1), Finish(1), Finish(0)]
    requires answer == Answer(EndMark, None)
    ensures Both(Run(START, ticks, Repeat(6, answer)))
  {
    SixTicks(ticks[0], ticks[1], ticks[2], ticks[3], ticks[4], ticks[5], answer);
  }

  // Two calls of `Cancel` both ask the session before either has its answer.
  lemma OverlapConfirmsTwice(ticks: seq<Tick>, answer: Answer<bool>)
    requires ticks == [Begin(0, CancelCall), Ask(0), Begin(1, CancelCall), Ask(1), Finish(0), Finish(1)]
    requires answer == Answer(EndMark, None)
    ensures Run(START, ticks, Repeat(6, answer)).confirmed == 2
  {
    SixTicks(ticks[0], ticks[1], ticks[2], ticks[3], ticks[4], ticks[5], answer);
  }

  // A `Cancel` completes between the check of a `Next` and its asking.
  lemma OvertakenReadsLate(ticks: seq<Tick>, answer: Answer<bool>)
    requires ticks == [Begin(0, NextCall), Begin(1, CancelCall), Ask(1), Finish(1), Ask(0), Finish(0)]
    requires answer == Answer(EndMark, None)
    ensures Run(START, ticks, Repeat(6, answer)).late == 1
  {
    SixTicks(ticks[0], ticks[1], ticks[2], ticks[3], ticks[4], ticks[5], answer);
  }
}

// Reducing the frames that answer a unary call (`unary_answer` in
// runtime/rust/transport.rs).
module UnaryAnswer {
  import opened Basics
  import opened Json
  import opened Frames
  import opened StreamClient

  datatype UnaryError =
    | WrongExchange(id: string)
    | SecondBody
    | MissingBody
    | RemoteFailed(code: string, message: Option<string>)
    | PeerCancelled
    | CallInAnswer
    | NeverEnded
    | NoResponse

  // What is known after some frames: the body so far, whether an end came.
  datatype Progress = Progress(body: Option<string>, ended: bool)

  function Take(id: string, p: Progress, f: Frame): Result<Progress, UnaryError> {
    if f.id != id then Err(WrongExchange(f.id))
    else
      match f.kind
      case Data =>
        if p.body.Some? then Err(SecondBody)
        else if f.body.None? then Err(MissingBody)
        else Ok(p.(body := Some(Print(f.body.value))))
      case End => Ok(p.(ended := true))
      case Error => Err(RemoteFailed(if f.code.Some? then f.code.value else "unknown", f.message))
      case Cancel => Err(PeerCancelled)
      case Call => Err(CallInAnswer)
  }

  function Scan(id: string, p: Progress, frames: seq<Frame>): Result<Progress, UnaryError>
    decreases |frames|
  {
    if frames == [] then Ok(p)
    else
      match Take(id, p, frames[0])
      case Err(e) => Err(e)
      case Ok(q) => Scan(id, q, frames[1..])
  }

  function Finish(p: Progress): Result<string, UnaryError> {
    if p.body.None? then Err(NoResponse)
    else if p.ended then Ok(p.body.value)
    else Err(NeverEnded)
  }

  function Answer(id: string, frames: seq<Frame>): Result<string, UnaryError> {
    match Scan(id, Progress(None, false), frames)
    case Err(e) => Err(e)
    case Ok(p) => Finish(p)
  }

  /** `unary_answer`. */
  method Reduce(id: string, frames: seq<Frame>) returns (r: Result<string, UnaryError>)
    ensures r == Answer(id, frames)
  {
    var body: Option<string> := None;
    var ended := false;
    var i := 0;
    assert frames[0..] == frames;
    while i < |frames|
      invariant 0 <= i <= |frames|
      invariant Scan(id, Progress(body, ended), frames[i..]) == Scan(id, Progress(None, false), frames)
    {
      var f := frames[i];
      assert frames[i..][1..] == frames[i + 1..];
      if f.id != id {
        return Err(WrongExchange(f.id));
      }
      match f.kind {
        case Data =>
          if body.Some? {
            return Err(SecondBody);
          }
          if f.body.None? {
            return Err(MissingBody);
          }
          body := Some(Print(f.body.value));
        case End =>
          ended := true;
        case Error =>
          return Err(RemoteFailed(if f.code.Some? then f.code.value else "unknown", f.message));
        case Cancel =>
          return Err(PeerCancelled);
        case Call =>
          return Err(CallInAnswer);
      }
      i := i + 1;
    }
    if body.None? {
      return Err(NoResponse);
    }
    r := if ended then Ok(body.value) else Err(NeverEnded);
  }

  // -------------------------------------------------- exact description

  predicate OwnDataOrEnd(id: string, f: Frame) {
    f.id == id && (f.kind == End || (f.kind == Data && f.body.Some?))
  }

  ghost predicate Acceptable(id: string, frames: seq<Frame>) {
    forall i :: 0 <= i < |frames| ==> OwnDataOrEnd(id, frames[i])
  }

  /** The frame at `d` is the only data frame. */
  ghost predicate OnlyData(frames: seq<Frame>, d: int) {
    && 0 <= d < |frames| && frames[d].kind == Data
    && forall i :: 0 <= i < |frames| && i != d ==> frames[i].kind != Data
  }

  ghost predicate NoData(frames: seq<Frame>) {
    forall i :: 0 <= i < |frames| ==> frames[i].kind != Data
  }

  ghost predicate HasEnd(frames: seq<Frame>) {
    exists i :: 0 <= i < |frames| && frames[i].kind == End
  }

  lemma HasEndCons(f: Frame, rest: seq<Frame>)
    ensures HasEnd([f] + rest) <==> f.kind == End || HasEnd(rest)
  {
    if HasEnd(rest) {
      var i :| 0 <= i < |rest| && rest[i].kind == End;
      assert ([f] + rest)[i + 1] == rest[i];
    }
    if f.kind == End {
      assert ([f] + rest)[0].kind == End;
    }
  }

  lemma {:induction false} ScanWithBody(id: string, p: Progress, frames: seq<Frame>)
    requires p.body.Some?
    ensures Scan(id, p, frames).Ok? <==> Acceptable(id, frames) && NoData(frames)
    ensures Scan(id, p, frames).Ok? ==>
      Scan(id, p, frames).value == Progress(p.body, p.ended || HasEnd(frames))
    decreases |frames|
  {
    if frames != [] {
      var f, rest := frames[0], frames[1..];
      assert frames == [f] + rest;
      HasEndCons(f, rest);
      if Take(id, p, f).Ok? {
        ScanWithBody(id, Take(id, p, f).value, rest);
        assert Acceptable(id, frames) <==> Acceptable(id, rest);
        assert NoData(frames) <==> NoData(rest) by {
          assert forall i :: 0 < i < |frames| ==> frames[i] == rest[i - 1];
        }
      }
    }
  }

  lemma {:induction false} ScanWithout(id: string, ended: bool, frames: seq<Frame>)
    ensures var r := Scan(id, Progress(None, ended), frames);
      && (r.Ok? <==> Acceptable(id, frames) && (NoData(frames) || exists d :: OnlyData(frames, d)))
      && (r.Ok? ==> r.value.ended == (ended || HasEnd(frames)))
      && (r.Ok? && NoData(frames) ==> r.value.body == None)
      && (forall d :: r.Ok? && OnlyData(frames, d) ==> r.value.body == Some(Print(frames[d].body.value)))
    decreases |frames|
  {
    if frames != [] {
      var p := Progress(None, ended);
      var f, rest := frames[0], frames[1..];
      assert frames == [f] + rest;
      HasEndCons(f, rest);
      TailData(frames);
      if Take(id, p, f).Ok? {
        assert Acceptable(id, frames) <==> Acceptable(id, rest);
        if f.kind == Data {
          ScanWithBody(id, Take(id, p, f).value, rest);
          assert NoData(rest) <==> OnlyData(frames, 0);
        } else {
          ScanWithout(id, true, rest);
        }
      }
    }
  }

  lemma TailData(frames: seq<Frame>)
    requires frames != []
    ensures frames[0].kind == Data ==>
      !NoData(frames) && forall d :: OnlyData(frames, d) <==> d == 0 && NoData(frames[1..])
    ensures frames[0].kind != Data ==>
      && (NoData(frames) <==> NoData(frames[1..]))
      && (forall d :: d > 0 ==> (OnlyData(frames, d) <==> OnlyData(frames[1..], d - 1)))
      && !OnlyData(frames, 0)
      && ((exists d :: OnlyData(frames, d)) <==> exists d :: OnlyData(frames[1..], d))
  {
    var rest := frames[1..];
    assert forall i :: 0 < i < |frames| ==> frames[i] == rest[i - 1];
    assert forall i :: 0 <= i < |rest| ==> rest[i] == frames[i + 1];
    if frames[0].kind != Data {
      forall d | d > 0 ensures OnlyData(frames, d) <==> OnlyData(rest, d - 1) {
        if OnlyData(frames, d) {
          assert rest[d - 1].kind == Data;
        }
        if OnlyData(rest, d - 1) {
          assert frames[d].kind == Data;
        }
      }
      if d :| OnlyData(rest, d) {
        assert OnlyData(frames, d + 1);
      }
      if d :| OnlyData(frames, d) {
        assert OnlyData(rest, d - 1);
      }
    }
  }

  // A unary call is answered exactly by frames of its own exchange that are
  // all data or end, with one data frame, which has the body, and at least one
  // end, in any order.
  lemma AnsweredIff(id: string, frames: seq<Frame>)
    ensures Answer(id, frames).Ok?
      <==> Acceptable(id, frames) && HasEnd(frames) && exists d :: OnlyData(frames, d)
    ensures forall d :: Answer(id, frames).Ok? && OnlyData(frames, d) ==>
      Answer(id, frames).value == Print(frames[d].body.value)
  {
    ScanWithout(id, false, frames);
    if d :| OnlyData(frames, d) {
      assert !NoData(frames);
    }
  }

  // ------------------------------------------------------ every failure

  /** Nothing before `k` stops the reading: ends, and at most one data frame. */
  ghost predicate Steady(id: string, frames: seq<Frame>, k: int)
    requires 0 <= k <= |frames|
  {
    && (forall i :: 0 <= i < k ==> OwnDataOrEnd(id, frames[i]))
    && (forall i, j :: 0 <= i < j < k ==> !(frames[i].kind == Data && frames[j].kind == Data))
  }

  /** The frame at `k` is the first that stops it. */
  ghost predicate StopsAt(id: string, frames: seq<Frame>, k: int) {
    0 <= k < |frames| && Steady(id, frames, k) && !Steady(id, frames, k + 1)
  }

  /** What is known when the frames before `k` have been taken. */
  ghost predicate KnownAt(frames: seq<Frame>, k: int, p: Progress)
    requires 0 <= k <= |frames|
  {
    && (p.body.Some? <==> exists i :: 0 <= i < k && frames[i].kind == Data)
    && (p.ended <==> exists i :: 0 <= i < k && frames[i].kind == End)
  }

  lemma {:induction false} ScanSteady(id: string, frames: seq<Frame>, k: nat) returns (p: Progress)
    requires k <= |frames| && Steady(id, frames, k)
    ensures KnownAt(frames, k, p)
    ensures Scan(id, Progress(None, false), frames) == Scan(id, p, frames[k..])
  {
    if k == 0 {
      p := Progress(None, false);
      assert frames[0..] == frames;
    } else {
      var q := ScanSteady(id, frames, k - 1);
      var f := frames[k - 1];
      assert OwnDataOrEnd(id, f);
      assert frames[k - 1..][0] == f && frames[k - 1..][1..] == frames[k..];
      p := Take(id, q, f).value;
    }
  }

  lemma {:induction false} FirstStop(id: string, frames: seq<Frame>, n: nat) returns (k: nat)
    requires n <= |frames| && !Steady(id, frames, n)
    ensures StopsAt(id, frames, k)
  {
    if Steady(id, frames, n - 1) {
      k := n - 1;
    } else {
      k := FirstStop(id, frames, n - 1);
    }
  }

  /** The failure that the stopping frame stands for. */
  ghost predicate FailsFor(id: string, frames: seq<Frame>, k: int, e: UnaryError)
    requires 0 <= k < |frames|
  {
    var f := frames[k];
    var second := exists i :: 0 <= i < k && frames[i].kind == Data;
    && (f.id != id ==> e == WrongExchange(f.id))
    && (f.id == id && f.kind == Data && second ==> e == SecondBody)
    && (f.id == id && f.kind == Data && !second ==> f.body.None? && e == MissingBody)
    && (f.id == id && f.kind == Error ==>
          e == RemoteFailed(if f.code.Some? then f.code.value else "unknown", f.message))
    && (f.id == id && f.kind == Cancel ==> e == PeerCancelled)
    && (f.id == id && f.kind == Call ==> e == CallInAnswer)
    && !(f.id == id && f.kind == End)
  }

  // What stops the reading is the failure; if nothing does, a missing answer
  // is reported before a missing end.
  lemma FailureIs(id: string, frames: seq<Frame>)
    ensures forall k :: StopsAt(id, frames, k) ==>
      Answer(id, frames).Err? && FailsFor(id, frames, k, Answer(id, frames).error)
    ensures Steady(id, frames, |frames|) ==>
      && (NoData(frames) <==> Answer(id, frames) == Err(NoResponse))
      && (!NoData(frames) && !HasEnd(frames) <==> Answer(id, frames) == Err(NeverEnded))
      && (!NoData(frames) && HasEnd(frames) <==> Answer(id, frames).Ok?)
    ensures Steady(id, frames, |frames|) || exists k :: StopsAt(id, frames, k)
  {
    forall k | StopsAt(id, frames, k)
      ensures Answer(id, frames).Err? && FailsFor(id, frames, k, Answer(id, frames).error)
    {
      var p := ScanSteady(id, frames, k);
      StopFails(id, frames, k, p);
    }
    if Steady(id, frames, |frames|) {
      var p := ScanSteady(id, frames, |frames|);
      assert frames[|frames|..] == [];
    } else {
      var k := FirstStop(id, frames, |frames|);
    }
  }

  lemma StopFails(id: string, frames: seq<Frame>, k: nat, p: Progress)
    requires StopsAt(id, frames, k) && KnownAt(frames, k, p)
    ensures Take(id, p, frames[k]).Err? && FailsFor(id, frames, k, Take(id, p, frames[k]).error)
    ensures Scan(id, p, frames[k..]) == Err(Take(id, p, frames[k]).error)
  {
    var f := frames[k];
    if OwnDataOrEnd(id, f) {
      assert f.kind == Data && exists i :: 0 <= i < k && frames[i].kind == Data;
    }
    assert frames[k..][0] == f;
  }

  // A frame that fails fixes the result, whatever follows.
  lemma {:induction false} FailureIsFinal(id: string, p: Progress, frames: seq<Frame>, more: seq<Frame>)
    requires Scan(id, p, frames).Err?
    ensures Scan(id, p, frames + more) == Err(Scan(id, p, frames).error)
    decreases |frames|
  {
    assert (frames + more)[0] == frames[0] && (frames + more)[1..] == frames[1..] + more;
    if Take(id, p, frames[0]).Ok? {
      FailureIsFinal(id, Take(id, p, frames[0]).value, frames[1..], more);
    }
  }

  lemma FailedPrefixDecides(id: string, frames: seq<Frame>, more: seq<Frame>)
    requires Scan(id, Progress(None, false), frames).Err?
    ensures Answer(id, frames + more) == Answer(id, frames)
  {
    FailureIsFinal(id, Progress(None, false), frames, more);
  }

  // ------------------------------------------ agreement with streaming

  function Identity(): Json -> Result<Json, string> { (v: Json) => Ok(v) }

  /** A session that delivers these frames and then closes. */
  function Script(frames: seq<Frame>): nat -> SessionEvent {
    (i: nat) => if i < |frames| then Arrived(frames[i]) else Closed
  }

  /** A stream client read to its end: one call past the frames is enough. */
  ghost function Drained(id: string, frames: seq<Frame>): Trace<Json> {
    Pump(id, Identity(), Script(frames), |frames| + 1)
  }

  ghost function Consumed(id: string, frames: seq<Frame>): seq<Frame> {
    var n := Drained(id, frames).drawn;
    if n <= |frames| then frames[..n] else frames
  }

  lemma ConsumedShape(id: string, frames: seq<Frame>)
    ensures var p, n := Drained(id, frames), Drained(id, frames).drawn;
      && 0 < n <= |frames| + 1 && p.state.done
      && (forall i :: 0 <= i < n - 1 ==>
            frames[i].id == id && frames[i].kind == Data && frames[i].body.Some?)
      && (p.state.ended <==> n <= |frames| && frames[n - 1].id == id && frames[n - 1].kind == End)
      && (n <= |frames| ==> !(frames[n - 1].id == id && frames[n - 1].kind == Data && frames[n - 1].body.Some?))
  {
    var script := Script(frames);
    PumpReads(id, Identity(), script, |frames| + 1);
    assert !Passes(id, Identity(), script(|frames|));
    var n := Drained(id, frames).drawn;
    forall i | 0 <= i < n - 1
      ensures frames[i].id == id && frames[i].kind == Data && frames[i].body.Some?
    {
      assert Passes(id, Identity(), script(i));
    }
  }

  // A drained stream client that decodes nothing agrees with the unary reducer
  // about the frames it consumed: that prefix answers a unary call exactly when
  // the client got one item and then the end of the stream.
  lemma StreamAgrees(id: string, frames: seq<Frame>)
    ensures var p, prefix := Drained(id, frames), Consumed(id, frames);
      && (Answer(id, prefix).Ok? <==> p.state.ended && p.drawn == 2)
      && (Answer(id, prefix).Ok? ==>
            |p.results| >= 2 && p.results[0].Item? && p.results[1] == Nothing
            && Answer(id, prefix).value == Print(p.results[0].value))
  {
    ConsumedShape(id, frames);
    var p, prefix := Drained(id, frames), Consumed(id, frames);
    AnsweredIff(id, prefix);
    if p.state.ended && p.drawn == 2 {
      assert prefix[1].kind == End && OnlyData(prefix, 0);
      TwoResults(id, frames);
    }
    if Answer(id, prefix).Ok? {
      var e :| 0 <= e < |prefix| && prefix[e].kind == End;
      var d :| OnlyData(prefix, d);
      assert forall i :: 0 <= i < p.drawn - 1 ==> prefix[i] == frames[i] && prefix[i].kind == Data;
      assert p.drawn - 1 <= e;
      assert OwnDataOrEnd(id, prefix[e]);
      LeadingData(prefix, d, p.drawn - 1);
    }
  }

  lemma LeadingData(frames: seq<Frame>, d: int, n: nat)
    requires OnlyData(frames, d) && n <= |frames|
    requires forall i :: 0 <= i < n ==> frames[i].kind == Data
    ensures n <= 1
  {
    if n > 0 {
      assert frames[0].kind == Data && frames[n - 1].kind == Data;
      assert 0 == d == n - 1;
    }
  }

  lemma TwoResults(id: string, frames: seq<Frame>)
    requires Drained(id, frames).drawn == 2 && Drained(id, frames).state.ended
    ensures var p := Drained(id, frames);
      |p.results| >= 2 && frames != [] && frames[0].body.Some?
      && p.results[0] == Item(frames[0].body.value) && p.results[1] == Nothing
  {
    ConsumedShape(id, frames);
    var script := Script(frames);
    PumpIsAFold(id, Identity(), script, |frames| + 1);
    assert Passes(id, Identity(), script(0)) && !Passes(id, Identity(), script(1));
    assert AllPass(id, Identity(), script, 0) && AllPass(id, Identity(), script, 1);
    var p := Drained(id, frames);
    assert p.results[0] == Expected(id, Identity(), script, 0);
    assert p.results[1] == Expected(id, Identity(), script, 1);
  }
}

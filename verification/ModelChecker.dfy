// The worklist model checker of operation admission (conformance/formal_model.rs),
// for any finite lists of operations and digests; the original has two of each.
module ModelChecker {
  import opened Basics

  // The admitted digest of every operation that has one.
  type State = map<string, nat>

  datatype Config = Config(ops: seq<string>, digests: seq<nat>)

  const INITIAL: State := map[]

  function DigestOf(s: State, op: string): Option<nat> {
    if op in s then Some(s[op]) else None
  }

  /** `admit`: None where there is no transition. */
  function Admit(current: Option<nat>, digest: nat): Option<nat> {
    if current.None? || current.value == digest then Some(digest) else None
  }

  /** `invariant`. */
  ghost predicate Invariant(c: Config, s: State) {
    forall op :: op in s ==> s[op] in c.digests
  }

  ghost predicate Step(c: Config, s: State, t: State) {
    exists op, d :: op in c.ops && d in c.digests && Admitted(s, op, d, t)
  }

  predicate Admitted(s: State, op: string, d: nat, t: State) {
    Admit(DigestOf(s, op), d) == Some(d) && t == s[op := d]
  }

  // -------------------------------------------------------- the checker

  ghost predicate AdmittedBy(c: Config, s: State, d: nat, n: nat, t: State)
    requires n <= |c.ops|
  {
    exists k :: 0 <= k < n && Admitted(s, c.ops[k], d, t)
  }

  ghost predicate StepUpTo(c: Config, s: State, n: nat, t: State)
    requires n <= |c.digests|
  {
    exists k :: 0 <= k < n && AdmittedBy(c, s, c.digests[k], |c.ops|, t)
  }

  lemma StepUpToAll(c: Config, s: State, t: State)
    ensures StepUpTo(c, s, |c.digests|, t) <==> Step(c, s, t)
  {
    if Step(c, s, t) {
      var op, d :| op in c.ops && d in c.digests && Admitted(s, op, d, t);
      var i :| 0 <= i < |c.ops| && c.ops[i] == op;
      var k :| 0 <= k < |c.digests| && c.digests[k] == d;
      assert AdmittedBy(c, s, c.digests[k], |c.ops|, t);
    }
  }

  /** `next`: one candidate for every admissible digest and operation. */
  method Next(c: Config, s: State) returns (out: seq<State>)
    ensures forall t :: t in out <==> Step(c, s, t)
  {
    out := [];
    var i := 0;
    while i < |c.digests|
      invariant 0 <= i <= |c.digests|
      invariant forall t :: t in out <==> StepUpTo(c, s, i, t)
    {
      var d := c.digests[i];
      var j := 0;
      while j < |c.ops|
        invariant 0 <= j <= |c.ops|
        invariant forall t :: t in out <==> StepUpTo(c, s, i, t) || AdmittedBy(c, s, d, j, t)
      {
        var value := Admit(DigestOf(s, c.ops[j]), d);
        if value.Some? {
          assert Admitted(s, c.ops[j], d, s[c.ops[j] := d]);
          out := out + [s[c.ops[j] := value.value]];
        }
        j := j + 1;
      }
      i := i + 1;
    }
    forall t ensures t in out <==> Step(c, s, t) {
      StepUpToAll(c, s, t);
    }
  }

  ghost function Extended(states: set<State>, op: string, digests: seq<nat>): set<State> {
    if digests == [] then {}
    else (set s | s in states :: s[op := digests[0]]) + Extended(states, op, digests[1..])
  }

  lemma {:induction false} ExtendedAre(states: set<State>, op: string, digests: seq<nat>, t: State)
    ensures t in Extended(states, op, digests) <==> exists d :: d in digests && IsExtended(states, op, d, t)
  {
    if digests != [] {
      ExtendedAre(states, op, digests[1..], t);
      assert digests == [digests[0]] + digests[1..];
      assert t in (set s | s in states :: s[op := digests[0]]) <==> IsExtended(states, op, digests[0], t);
    }
  }

  ghost predicate IsExtended(states: set<State>, op: string, d: nat, t: State) {
    exists s :: s in states && t == s[op := d]
  }

  /** All partial maps from the first `n` operations to digests. */
  ghost function AllStates(c: Config, n: nat): set<State>
    requires n <= |c.ops|
  {
    if n == 0 then {INITIAL}
    else AllStates(c, n - 1) + Extended(AllStates(c, n - 1), c.ops[n - 1], c.digests)
  }

  ghost predicate Within(c: Config, n: nat, s: State)
    requires n <= |c.ops|
  {
    forall op :: op in s ==> op in c.ops[..n] && s[op] in c.digests
  }

  lemma {:induction false} WithinAllStates(c: Config, n: nat, s: State)
    requires n <= |c.ops| && Within(c, n, s)
    ensures s in AllStates(c, n)
  {
    if n == 0 {
      assert s == INITIAL;
    } else {
      var op := c.ops[n - 1];
      var before := AllStates(c, n - 1);
      assert c.ops[..n] == c.ops[..n - 1] + [op];
      if op in s {
        var p := s - {op};
        WithinAllStates(c, n - 1, p);
        assert s == p[op := s[op]];
        assert IsExtended(before, op, s[op], s);
        ExtendedAre(before, op, c.digests, s);
      } else {
        WithinAllStates(c, n - 1, s);
      }
    }
  }

  ghost predicate Total(c: Config, s: State) {
    Within(c, |c.ops|, s)
  }

  lemma StepStaysInside(c: Config, s: State, t: State)
    requires Total(c, s) && Step(c, s, t)
    ensures Total(c, t)
  {
    assert c.ops[..|c.ops|] == c.ops;
  }

  // Every explored state is expanded or still queued.
  ghost predicate Explored(c: Config, seen: set<State>, queue: seq<State>) {
    && INITIAL in seen
    && (forall s :: s in queue ==> s in seen)
    && (forall s :: s in seen ==> Reachable(c, s))
    && (forall s, t :: s in seen && s !in queue && Step(c, s, t) ==> t in seen)
  }

  /** The search in `main`. The original's assertions are proof obligations. */
  method Explore(c: Config) returns (seen: set<State>)
    ensures forall s :: s in seen <==> Reachable(c, s)
    ensures forall s :: s in seen ==> Invariant(c, s)
  {
    seen := {INITIAL};
    var queue := [INITIAL];
    ghost var all := AllStates(c, |c.ops|);
    ReachableZero(c);
    while queue != []
      invariant Explored(c, seen, queue)
      decreases all - seen, |queue|
    {
      var state := queue[0];
      ReachableIsTotal(c, state);
      assert Invariant(c, state);
      var candidates := Next(c, state);
      seen, queue := Expand(c, state, candidates, seen, queue[1..], all);
    }
    forall s | Reachable(c, s) ensures s in seen {
      var n: nat :| ReachableIn(c, s, n);
      ClosedHoldsReachable(c, seen, s, n);
    }
    forall s | s in seen ensures Invariant(c, s) {
      ReachableIsTotal(c, s);
    }
  }

  method Expand(c: Config, state: State, candidates: seq<State>, seen0: set<State>, queue0: seq<State>, ghost all: set<State>)
    returns (seen: set<State>, queue: seq<State>)
    requires all == AllStates(c, |c.ops|)
    requires Explored(c, seen0, [state] + queue0)
    requires forall t :: t in candidates <==> Step(c, state, t)
    ensures Explored(c, seen, queue)
    ensures seen0 <= seen && (seen == seen0 ==> queue == queue0)
    ensures seen != seen0 ==> all - seen < all - seen0
  {
    seen, queue := seen0, queue0;
    assert state in [state] + queue0;
    var i := 0;
    while i < |candidates|
      invariant 0 <= i <= |candidates|
      invariant seen0 <= seen && (seen == seen0 ==> queue == queue0)
      invariant seen != seen0 ==> all - seen < all - seen0
      invariant forall s :: s in queue ==> s in seen
      invariant forall s :: s in seen ==> Reachable(c, s)
      invariant forall j :: 0 <= j < i ==> candidates[j] in seen
      invariant forall s :: s in seen && s !in queue ==> s == state || (s in seen0 && s !in queue0)
    {
      var candidate := candidates[i];
      assert candidate in candidates && Step(c, state, candidate);
      ReachableNext(c, state, candidate);
      ReachableIsTotal(c, candidate);
      DigestsStay(c, state, candidate);
      assert Invariant(c, candidate);
      assert forall op :: op in state ==> DigestOf(candidate, op) == Some(state[op]);
      if candidate !in seen {
        WithinAllStates(c, |c.ops|, candidate);
        assert candidate in all - seen0;
        seen := seen + {candidate};
        queue := queue + [candidate];
      }
      i := i + 1;
    }
    forall s, t | s in seen && s !in queue && Step(c, s, t) ensures t in seen {
      if s == state {
        assert t in candidates;
      } else {
        assert s !in [state] + queue0;
      }
    }
  }

  // -------------------------------------------------------- reachability

  ghost predicate ReachableIn(c: Config, s: State, n: nat)
    decreases n
  {
    if n == 0 then s == INITIAL else exists p :: ReachableIn(c, p, n - 1) && Step(c, p, s)
  }

  ghost predicate Reachable(c: Config, s: State) {
    exists n: nat :: ReachableIn(c, s, n)
  }

  lemma ReachableZero(c: Config)
    ensures Reachable(c, INITIAL)
  {
    assert ReachableIn(c, INITIAL, 0);
  }

  lemma ReachableNext(c: Config, s: State, t: State)
    requires Reachable(c, s) && Step(c, s, t)
    ensures Reachable(c, t)
  {
    var n: nat :| ReachableIn(c, s, n);
    assert ReachableIn(c, t, n + 1);
  }

  lemma {:induction false} ReachableInIsTotal(c: Config, s: State, n: nat)
    requires ReachableIn(c, s, n)
    ensures Total(c, s)
  {
    if n > 0 {
      var p :| ReachableIn(c, p, n - 1) && Step(c, p, s);
      ReachableInIsTotal(c, p, n - 1);
      StepStaysInside(c, p, s);
    }
  }

  lemma ReachableIsTotal(c: Config, s: State)
    requires Reachable(c, s)
    ensures Total(c, s) && Invariant(c, s)
  {
    var n: nat :| ReachableIn(c, s, n);
    ReachableInIsTotal(c, s, n);
  }

  lemma {:induction false} ClosedHoldsReachable(c: Config, seen: set<State>, s: State, n: nat)
    requires Explored(c, seen, []) && ReachableIn(c, s, n)
    ensures s in seen
  {
    if n > 0 {
      var p :| ReachableIn(c, p, n - 1) && Step(c, p, s);
      ClosedHoldsReachable(c, seen, p, n - 1);
    }
  }

  // -------------------------------------------------------- main results

  // Everything a registry could hold is reachable: the search covers all
  // partial maps from operations to digests, and nothing else.
  lemma {:induction false} ReachableIffTotal(c: Config, s: State)
    ensures Reachable(c, s) <==> Total(c, s)
    decreases |s|
  {
    if Reachable(c, s) {
      ReachableIsTotal(c, s);
    }
    if Total(c, s) {
      if s == INITIAL {
        ReachableZero(c);
      } else {
        var op :| op in s;
        var p := s - {op};
        assert |p| < |s| by {
          assert s.Keys == p.Keys + {op};
          assert |s.Keys| == |p.Keys| + 1;
        }
        ReachableIffTotal(c, p);
        assert c.ops[..|c.ops|] == c.ops;
        assert Admitted(p, op, s[op], s);
        assert Step(c, p, s);
        ReachableNext(c, p, s);
      }
    }
  }

  // Admitting again is possible with the admitted digest alone, and changes
  // nothing.
  lemma ReadmissionIsIdempotent(s: State, op: string, d: nat)
    requires op in s
    ensures (exists t :: Admitted(s, op, d, t)) <==> d == s[op]
    ensures forall t :: Admitted(s, op, d, t) ==> t == s
  {
    if d == s[op] {
      assert Admitted(s, op, d, s[op := d]);
    }
  }

  lemma DigestsStay(c: Config, s: State, t: State)
    requires Step(c, s, t)
    ensures forall op :: op in s ==> op in t && t[op] == s[op]
  {}

  ghost predicate IsRun(c: Config, run: seq<State>) {
    forall i :: 0 <= i < |run| - 1 ==> Step(c, run[i], run[i + 1])
  }

  // No run ever changes a digest once it is admitted.
  lemma {:induction false} RunsKeepDigests(c: Config, run: seq<State>, i: nat, j: nat, op: string)
    requires IsRun(c, run) && i <= j < |run| && op in run[i]
    ensures op in run[j] && run[j][op] == run[i][op]
    decreases j - i
  {
    if i < j {
      DigestsStay(c, run[i], run[i + 1]);
      RunsKeepDigests(c, run, i + 1, j, op);
    }
  }
}

// Three-colour cycle detection over type definitions (`_validate_acyclic`).
module Acyclic {
  import opened Graph
  import opened Types

  datatype Colour = White | Grey | Black

  /** The name a required value must contain at once; list, map and option
      give a place to stop, so they contribute nothing. */
  function DirectRefs(e: TypeExpr): seq<string> {
    if e.Named? then [e.name] else []
  }

  function FieldRefs(fields: seq<Field>): seq<string> {
    if fields == [] then []
    else (if fields[0].required then DirectRefs(fields[0].ftype) else []) + FieldRefs(fields[1..])
  }

  function Edges(d: TypeDef): seq<string> {
    match d
    case RecordDef(fields) => FieldRefs(fields)
    case AliasDef(target) => DirectRefs(target)
    case _ => []
  }

  function DefinitionGraph(t: TypeTable): Graph {
    map n | n in t.defs :: Edges(t.defs[n])
  }

  function IndexOf(s: seq<string>, x: string): (i: nat)
    requires x in s
    ensures i < |s| && s[i] == x
  {
    if s[0] == x then 0 else 1 + IndexOf(s[1..], x)
  }

  type Colours = map<string, Colour>

  // Grey nodes are exactly those on the stack, which is a path.
  ghost predicate StackOk(g: Graph, colour: Colours, stack: seq<string>) {
    && colour.Keys == g.Keys
    && IsPath(g, stack)
    && (forall n :: n in colour && colour[n] == Grey ==> n in stack)
    && (forall i :: 0 <= i < |stack| ==> stack[i] in colour && colour[stack[i]] == Grey)
  }

  ghost predicate BlacksGrounded(g: Graph, colour: Colours, bound: nat) {
    forall n :: n in colour && colour[n] == Black ==> Grounded(g, n, bound)
  }

  // Nodes only ever lose their white colour, and black is final.
  ghost predicate Progress(before: Colours, after: Colours) {
    && before.Keys == after.Keys
    && (forall n :: n in before && after[n] == White ==> before[n] == White)
    && (forall n :: n in before && before[n] == Black ==> after[n] == Black)
  }

  ghost function Whites(colour: Colours): set<string> {
    set n | n in colour && colour[n] == White
  }

  lemma WhitesShrink(before: Colours, after: Colours, name: string)
    requires Progress(before, after)
    requires name in before && before[name] == White && after[name] != White
    ensures Whites(after) < Whites(before)
  {
    assert name in Whites(before) && name !in Whites(after);
  }

  lemma PushGrey(g: Graph, colour: Colours, stack: seq<string>, name: string)
    requires StackOk(g, colour, stack) && name in g && colour[name] == White
    requires stack != [] ==> name in g[stack[|stack| - 1]]
    ensures StackOk(g, colour[name := Grey], stack + [name])
  {}

  lemma PopBlack(g: Graph, colour: Colours, stack: seq<string>, name: string)
    requires StackOk(g, colour, stack + [name]) && name !in stack
    ensures StackOk(g, colour[name := Black], stack)
  {
    var path := stack + [name];
    assert path[|stack|] == name;
    assert forall i :: 0 <= i < |stack| ==> path[i] == stack[i];
  }

  // With no error, a node whose successors are all black is grounded one
  // level deeper, and so is everything already black.
  lemma Blacken(g: Graph, colour: Colours, bound: nat, name: string)
    requires colour.Keys == g.Keys && name in g && BlacksGrounded(g, colour, bound)
    requires forall m :: m in g[name] && m in g ==> colour[m] == Black
    ensures BlacksGrounded(g, colour[name := Black], bound + 1)
  {
    forall n | n in colour && colour[n] == Black ensures Grounded(g, n, bound + 1) {
      GroundedMonotone(g, n, bound, bound + 1);
    }
  }

  lemma StackCycle(g: Graph, colour: Colours, stack: seq<string>, name: string, at: nat)
    requires StackOk(g, colour, stack) && at < |stack| && stack[at] == name
    requires name in g[stack[|stack| - 1]]
    ensures IsCycle(g, stack[at..] + [name])
  {
    var c := stack[at..] + [name];
    assert forall i :: 0 <= i < |c| - 1 ==> c[i] == stack[at + i];
  }

  class Colouring {
    const g: Graph
    var colour: Colours
    var errors: seq<seq<string>>
    // Depth within which every black node is grounded while no error is known.
    ghost var bound: nat

    constructor (g: Graph)
      ensures this.g == g && Valid() && StackOk(g, colour, []) && errors == []
      ensures forall n :: n in g ==> colour[n] == White
    {
      this.g := g;
      this.colour := map n | n in g :: White;
      this.errors := [];
      this.bound := 0;
    }

    ghost predicate Valid()
      reads this
    {
      && (errors == [] ==> BlacksGrounded(g, colour, bound))
      && (forall i :: 0 <= i < |errors| ==> IsCycle(g, errors[i]))
    }

    method Visit(name: string, stack: seq<string>)
      requires Valid() && StackOk(g, colour, stack)
      requires stack != [] && name in g ==> name in g[stack[|stack| - 1]]
      modifies this`colour, this`errors, this`bound
      ensures Valid() && StackOk(g, colour, stack)
      ensures old(errors) <= errors
      ensures Progress(old(colour), colour)
      ensures name in g ==> colour[name] != White
      ensures errors == [] && name in g ==> colour[name] == Black
      decreases Whites(colour), 0
    {
      if name !in colour || colour[name] == Black {
        return;
      }
      if colour[name] == Grey {
        var at := IndexOf(stack, name);
        StackCycle(g, colour, stack, name, at);
        errors := errors + [stack[at..] + [name]];
        return;
      }
      PushGrey(g, colour, stack, name);
      WhitesShrink(colour, colour[name := Grey], name);
      colour := colour[name := Grey];
      VisitSuccessors(name, stack);
      Finish(name, stack);
    }

    // Nothing more is to be seen from this name.
    method Finish(name: string, stack: seq<string>)
      requires Valid() && StackOk(g, colour, stack + [name]) && name in g && name !in stack
      requires errors == [] ==> forall m :: m in g[name] && m in g ==> colour[m] == Black
      modifies this`colour, this`bound
      ensures Valid() && StackOk(g, colour, stack)
      ensures colour == old(colour)[name := Black]
    {
      PopBlack(g, colour, stack, name);
      if errors == [] {
        Blacken(g, colour, bound, name);
      }
      colour := colour[name := Black];
      bound := bound + 1;
    }

    method VisitSuccessors(name: string, stack: seq<string>)
      requires Valid() && StackOk(g, colour, stack + [name])
      modifies this`colour, this`errors, this`bound
      ensures Valid() && StackOk(g, colour, stack + [name])
      ensures old(errors) <= errors
      ensures Progress(old(colour), colour)
      ensures name in g
      ensures errors == [] ==> forall m :: m in g[name] && m in g ==> colour[m] == Black
      decreases Whites(colour), 1
    {
      assert (stack + [name])[|stack|] == name;
      var successors := g[name];
      var i := 0;
      while i < |successors|
        invariant 0 <= i <= |successors|
        invariant Valid() && StackOk(g, colour, stack + [name])
        invariant old(errors) <= errors
        invariant Progress(old(colour), colour)
        invariant errors == [] ==> forall j :: 0 <= j < i && successors[j] in g ==> colour[successors[j]] == Black
      {
        if successors[i] in colour {
          assert Whites(colour) <= Whites(old(colour));
          Visit(successors[i], stack + [name]);
        }
        i := i + 1;
      }
    }

    // The loop over all names, outside any visit.
    method VisitAll(names: seq<string>)
      requires Valid() && StackOk(g, colour, [])
      modifies this`colour, this`errors, this`bound
      ensures Valid() && StackOk(g, colour, [])
      ensures forall n :: n in names && n in g ==> colour[n] != White
    {
      var i := 0;
      while i < |names|
        invariant 0 <= i <= |names|
        invariant Valid() && StackOk(g, colour, [])
        invariant forall j :: 0 <= j < i && names[j] in g ==> colour[names[j]] != White
      {
        Visit(names[i], []);
        i := i + 1;
      }
    }
  }

  // With nothing on the stack and nothing unvisited, all nodes are black.
  lemma NoWhiteWellFounded(g: Graph, colour: Colours, bound: nat)
    requires StackOk(g, colour, []) && BlacksGrounded(g, colour, bound)
    requires forall n :: n in g ==> colour[n] != White
    ensures WellFounded(g)
  {
    forall n | n in g ensures exists k: nat :: Grounded(g, n, k) {
      assert colour[n] == Black;
      assert Grounded(g, n, bound);
    }
  }

  /** `_validate_acyclic`: each error is the cycle it names. */
  method ValidateAcyclic(t: TypeTable) returns (errors: seq<seq<string>>)
    requires t.Valid()
    ensures errors == [] <==> WellFounded(DefinitionGraph(t))
    ensures forall i :: 0 <= i < |errors| ==> IsCycle(DefinitionGraph(t), errors[i])
  {
    var g := DefinitionGraph(t);
    var run := new Colouring(g);
    run.VisitAll(t.order);
    errors := run.errors;
    if errors == [] {
      NoWhiteWellFounded(g, run.colour, run.bound);
    } else {
      WellFoundedIffAcyclic(g);
      assert IsCycle(g, errors[0]);
    }
  }
}

// Declaration order of types (`ordered_types` in ridl/emit/base.py): a
// depth-first post-order that stops at names on the current stack, so it also
// ends on tables whose types are recursive through lists, maps and options.
module OrderedTypes {
  import opened Basics
  import opened Types
  import opened Graph

  function FieldNames(fields: seq<Field>): seq<string> {
    if fields == [] then [] else NamedIn(fields[0].ftype) + FieldNames(fields[1..])
  }

  /** Every name a definition mentions, at any depth of its expressions. */
  function Mentions(d: TypeDef): seq<string> {
    match d
    case RecordDef(fields) => FieldNames(fields)
    case AliasDef(target) => NamedIn(target)
    case _ => []
  }

  function MentionGraph(t: TypeTable): Graph {
    map n | n in t.defs :: Mentions(t.defs[n])
  }

  ghost predicate Leads(g: Graph, p: seq<string>, a: string, b: string) {
    p != [] && IsPath(g, p) && p[0] == a && p[|p| - 1] == b
  }

  ghost predicate Reaches(g: Graph, a: string, b: string) {
    exists p :: Leads(g, p, a, b)
  }

  // Whatever a listed name mentions comes before it, unless the two are
  // mutually recursive.
  ghost predicate PostOrder(g: Graph, out: seq<string>) {
    forall i, m :: 0 <= i < |out| && out[i] in g && m in g[out[i]] && m in g ==>
      m in out[..i] || Reaches(g, m, out[i])
  }

  ghost predicate Listing(g: Graph, out: seq<string>) {
    Distinct(out) && (forall n :: n in out ==> n in g) && PostOrder(g, out)
  }

  lemma AppendListing(g: Graph, out: seq<string>, name: string)
    requires Listing(g, out) && name in g && name !in out
    requires forall m :: m in g[name] && m in g ==> m in out || Reaches(g, m, name)
    ensures Listing(g, out + [name])
  {
    var more := out + [name];
    forall i, m | 0 <= i < |more| && more[i] in g && m in g[more[i]] && m in g
      ensures m in more[..i] || Reaches(g, m, more[i])
    {
      assert i < |out| ==> more[i] == out[i] && more[..i] == out[..i];
      assert more[..|out|] == out;
    }
  }

  /** The list after visiting a name: what it mentions first, then itself,
      unless it is listed, on the stack, or not declared. */
  function VisitOne(g: Graph, name: string, stack: set<string>, out: seq<string>): seq<string>
    decreases g.Keys - stack, 0, 0
  {
    if name in out || name in stack || name !in g then out
    else
      assert g.Keys - (stack + {name}) < g.Keys - stack by { assert name in g.Keys - stack; }
      VisitAll(g, g[name], stack + {name}, out) + [name]
  }

  /** The list after visiting names in order. */
  function VisitAll(g: Graph, names: seq<string>, stack: set<string>, out: seq<string>): seq<string>
    decreases g.Keys - stack, 1, |names|
  {
    if names == [] then out else VisitAll(g, names[1..], stack, VisitOne(g, names[0], stack, out))
  }

  class Ordering {
    const g: Graph
    var out: seq<string>
    var seen: set<string>

    constructor (g: Graph)
      ensures this.g == g && Valid() && out == []
    {
      this.g := g;
      out := [];
      seen := {};
    }

    ghost predicate Valid()
      reads this
    {
      Listing(g, out) && (forall n :: n in seen <==> n in out)
    }

    // `path` is the stack in order: the names being visited, each mentioning
    // the next.
    ghost predicate OnStack(stack: set<string>, path: seq<string>)
      reads this
    {
      && IsPath(g, path)
      && (forall n :: n in stack <==> n in path)
      && stack !! seen && stack <= g.Keys
    }

    method Visit(name: string, stack: set<string>, ghost path: seq<string>)
      requires Valid() && OnStack(stack, path)
      requires path != [] && name in g ==> name in g[path[|path| - 1]]
      modifies this`out, this`seen
      ensures Valid() && OnStack(stack, path)
      ensures old(out) <= out && old(seen) <= seen
      ensures name in g ==> name in seen || name in stack
      ensures out == VisitOne(g, name, stack, old(out))
      decreases g.Keys - stack
    {
      if name in seen || name in stack || name !in g {
        return;
      }
      var deps := g[name];
      ghost var here := path + [name];
      var i := 0;
      while i < |deps|
        invariant 0 <= i <= |deps|
        invariant Valid() && OnStack(stack + {name}, here)
        invariant old(out) <= out && old(seen) <= seen
        invariant forall j :: 0 <= j < i && deps[j] in g ==> deps[j] in seen || deps[j] in here
        invariant VisitAll(g, deps[i..], stack + {name}, out) == VisitAll(g, deps, stack + {name}, old(out))
      {
        assert deps[i..][0] == deps[i] && deps[i..][1..] == deps[i + 1..];
        assert here[|here| - 1] == name;
        Visit(deps[i], stack + {name}, here);
        i := i + 1;
      }
      assert name in stack + {name};
      forall m | m in g[name] && m in g ensures m in out || Reaches(g, m, name) {
        var j :| 0 <= j < |deps| && deps[j] == m;
        if m !in seen {
          var x :| 0 <= x < |here| && here[x] == m;
          assert Leads(g, here[x..], m, name);
        }
      }
      AppendListing(g, out, name);
      seen := seen + {name};
      out := out + [name];
    }
  }

  /** `ordered_types`. */
  method OrderTypes(t: TypeTable) returns (out: seq<string>)
    requires t.Valid()
    ensures Distinct(out)
    ensures forall n :: n in out <==> n in t.defs
    ensures PostOrder(MentionGraph(t), out)
    ensures out == VisitAll(MentionGraph(t), t.order, {}, [])
  {
    var g := MentionGraph(t);
    var run := new Ordering(g);
    var i := 0;
    while i < |t.order|
      invariant 0 <= i <= |t.order|
      invariant fresh(run) && run.g == g && run.Valid()
      invariant forall j :: 0 <= j < i ==> t.order[j] in run.seen
      invariant VisitAll(g, t.order[i..], {}, run.out) == VisitAll(g, t.order, {}, [])
    {
      assert t.order[i..][0] == t.order[i] && t.order[i..][1..] == t.order[i + 1..];
      assert t.order[i] in t.order;
      run.Visit(t.order[i], {}, []);
      i := i + 1;
    }
    out := run.out;
  }

  // Read the order off: what a mentions, and cannot mention a back, is
  // declared first.
  lemma DeclaredBeforeUse(t: TypeTable, out: seq<string>, a: nat, b: nat)
    requires Distinct(out) && PostOrder(MentionGraph(t), out)
    requires a < |out| && b < |out| && out[a] in t.defs && out[b] in t.defs
    requires out[b] in Mentions(t.defs[out[a]]) && !Reaches(MentionGraph(t), out[b], out[a])
    ensures b < a
  {
    assert out[b] in out[..a];
  }

  // On a table with no recursion at all the result is a topological order.
  lemma TopologicalWhenAcyclic(t: TypeTable, out: seq<string>, a: nat, m: string)
    requires PostOrder(MentionGraph(t), out) && WellFounded(MentionGraph(t))
    requires a < |out| && out[a] in t.defs && m in Mentions(t.defs[out[a]]) && m in t.defs
    ensures m in out[..a]
  {
    var g := MentionGraph(t);
    if m !in out[..a] {
      var p :| Leads(g, p, m, out[a]);
      var cycle := p + [m];
      assert IsCycle(g, cycle);
      WellFoundedIffAcyclic(g);
    }
  }
}

// Finite directed graphs over names: what it means for a node to be
// well-founded, and that being well-founded is the same as reaching no cycle.
module Graph {
  import opened Basics

  // Successors of every declared node. A successor that is not itself a key
  // is outside the graph and is ignored.
  type Graph = map<string, seq<string>>

  /** All paths from `n` stop within `k` nodes. */
  ghost predicate Grounded(g: Graph, n: string, k: nat)
    decreases k
  {
    && n in g
    && k > 0
    && forall m :: m in g[n] && m in g ==> Grounded(g, m, k - 1)
  }

  ghost predicate WellFounded(g: Graph) {
    forall n :: n in g ==> exists k: nat :: Grounded(g, n, k)
  }

  ghost predicate IsPath(g: Graph, p: seq<string>) {
    && (forall i :: 0 <= i < |p| ==> p[i] in g)
    && (forall i :: 0 <= i < |p| - 1 ==> p[i + 1] in g[p[i]])
  }

  /** A closed walk: at least one edge, ending where it starts. */
  ghost predicate IsCycle(g: Graph, c: seq<string>) {
    |c| >= 2 && IsPath(g, c) && c[0] == c[|c| - 1]
  }

  lemma {:induction false} GroundedMonotone(g: Graph, n: string, k: nat, more: nat)
    requires Grounded(g, n, k) && k <= more
    ensures Grounded(g, n, more)
    decreases k
  {
    forall m | m in g[n] && m in g ensures Grounded(g, m, more - 1) {
      GroundedMonotone(g, m, k - 1, more - 1);
    }
  }

  lemma {:induction false} CycleIsNotGrounded(g: Graph, c: seq<string>, i: nat, k: nat)
    requires IsCycle(g, c) && i < |c| - 1
    ensures !Grounded(g, c[i], k)
    decreases k
  {
    if k > 0 {
      CycleIsNotGrounded(g, c, if i + 1 == |c| - 1 then 0 else i + 1, k - 1);
      assert c[i + 1] in g[c[i]];
    }
  }

  // A node that is not grounded at depth k starts a path of k + 1 nodes.
  lemma {:induction false} UngroundedPath(g: Graph, n: string, k: nat) returns (p: seq<string>)
    requires n in g && !Grounded(g, n, k)
    ensures IsPath(g, p) && |p| == k + 1 && p[0] == n
    decreases k
  {
    if k == 0 {
      p := [n];
    } else {
      var m :| m in g[n] && m in g && !Grounded(g, m, k - 1);
      var rest := UngroundedPath(g, m, k - 1);
      p := [n] + rest;
    }
  }

  lemma {:induction false} GroundedOrCycle(g: Graph, n: string) returns (c: seq<string>)
    requires n in g
    ensures !Grounded(g, n, |g|) ==> IsCycle(g, c)
  {
    c := [];
    if !Grounded(g, n, |g|) {
      var p := UngroundedPath(g, n, |g|);
      if Distinct(p) {
        DistinctBound(p, g.Keys);
      }
      var i, j :| 0 <= i < j < |p| && p[i] == p[j];
      c := p[i..j + 1];
    }
  }

  // Well-foundedness and the absence of cycles are the same thing, and the
  // number of nodes is always a sufficient bound.
  lemma WellFoundedIffAcyclic(g: Graph)
    ensures WellFounded(g) <==> !exists c :: IsCycle(g, c)
    ensures WellFounded(g) ==> forall n :: n in g ==> Grounded(g, n, |g|)
  {
    if c :| IsCycle(g, c) {
      forall k: nat ensures !Grounded(g, c[0], k) {
        CycleIsNotGrounded(g, c, 0, k);
      }
      assert c[0] in g;
    } else {
      forall n | n in g ensures Grounded(g, n, |g|) {
        var c := GroundedOrCycle(g, n);
      }
    }
  }
}

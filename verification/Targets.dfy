// Which RPC target owns a source path (scripts/ores_rpc_config.py).
module Targets {
  import opened Basics
  import T = PathTemplates

  // Roots are stored normalised.
  datatype Target = Target(name: string, roots: seq<string>)

  datatype Failure = BadSourcePath | TargetNotFound | TargetAmbiguous

  predicate StartsWith(s: string, prefix: string) { prefix <= s }

  // ------------------------------------------------------ path normalising

  predicate Letter(c: char) { 'A' <= c <= 'Z' || 'a' <= c <= 'z' }

  /** `PurePosixPath(value).parts` of a relative path. */
  function Parts(segments: seq<string>): seq<string> {
    if segments == [] then []
    else (if segments[0] == "" || segments[0] == "." then [] else [segments[0]]) + Parts(segments[1..])
  }

  function Join(parts: seq<string>): string {
    if parts == [] then ""
    else if |parts| == 1 then parts[0]
    else parts[0] + "/" + Join(parts[1..])
  }

  /** `_safe_relative` with `allow_dot`. */
  function SafeRelative(value: string): Option<string> {
    if value == "" || |value| > 255 then None
    else if '\\' in value || value[0] == '/' || (|value| >= 2 && Letter(value[0]) && value[1] == ':') then None
    else
      var parts := Parts(T.SplitSlash(value));
      if ".." in parts then None
      else if parts == [] then Some(".")
      else Some(Join(parts))
  }

  ghost predicate PlainParts(parts: seq<string>) {
    forall i :: 0 <= i < |parts| ==> '/' !in parts[i]
  }

  lemma {:induction false} SplitPartsArePlain(s: string)
    ensures PlainParts(T.SplitSlash(s))
  {
    if s != "" {
      SplitPartsArePlain(s[1..]);
      var rest := T.SplitSlash(s[1..]);
      if s[0] != '/' {
        assert rest == [rest[0]] + rest[1..];
      }
    }
  }

  lemma {:induction false} PartsAreSegments(segments: seq<string>)
    requires PlainParts(segments)
    ensures PlainParts(Parts(segments))
    ensures forall i :: 0 <= i < |Parts(segments)| ==> Parts(segments)[i] != "" && Parts(segments)[i] != "."
  {
    if segments != [] {
      PartsAreSegments(segments[1..]);
      assert segments == [segments[0]] + segments[1..];
    }
  }

  lemma {:induction false} SplitJoin(parts: seq<string>)
    requires parts != [] && PlainParts(parts)
    ensures T.SplitSlash(Join(parts)) == parts
  {
    if |parts| == 1 {
      T.SplitWhole(parts[0]);
    } else {
      SplitJoin(parts[1..]);
      T.SplitSlashed(parts[0], Join(parts[1..]));
      assert Join(parts) == parts[0] + ("/" + Join(parts[1..]));
    }
  }

  // A normalised path is the root or steps only downwards, by proper names.
  lemma NormalisedGoesDown(value: string)
    requires SafeRelative(value).Some? && SafeRelative(value).value != "."
    ensures forall p :: p in T.SplitSlash(SafeRelative(value).value) ==> p != "" && p != "." && p != ".."
  {
    var parts := Parts(T.SplitSlash(value));
    SplitPartsArePlain(value);
    PartsAreSegments(T.SplitSlash(value));
    SplitJoin(parts);
  }

  // ------------------------------------------------------------- overlap

  /** `_overlap`. */
  predicate Overlap(left: string, right: string) {
    left == "." || right == "."
    || left == right || StartsWith(left, right + "/") || StartsWith(right, left + "/")
  }

  predicate RootOwns(root: string, source: string) {
    root == "." || source == root || StartsWith(source, root + "/")
  }

  ghost predicate Owns(t: Target, source: string) {
    exists i :: 0 <= i < |t.roots| && RootOwns(t.roots[i], source)
  }

  // Two roots that own one path overlap.
  lemma CommonPathOverlaps(a: string, b: string, source: string)
    requires RootOwns(a, source) && RootOwns(b, source)
    ensures Overlap(a, b)
  {
    if a != "." && b != "." && a != b {
      if |a| < |b| {
        LongerContinues(a, b, source);
      } else {
        LongerContinues(b, a, source);
      }
    }
  }

  lemma LongerContinues(a: string, b: string, source: string)
    requires a != b && |a| <= |b| && a != "." && b != "."
    requires RootOwns(a, source) && RootOwns(b, source)
    ensures StartsWith(b, a + "/")
  {
    assert source[..|a|] == a;
    assert source[..|b|] == b;
    assert b[..|a|] == source[..|a|];
    assert b[..|b|] == b;
    assert source != a;
    assert StartsWith(source, a + "/") && (a + "/")[|a|] == '/' && source[|a|] == '/';
    assert b[|a|] == source[|a|];
    assert b[..|a| + 1] == a + "/";
  }

  /** Of two overlapping roots, the one both own. */
  function Shared(a: string, b: string): string {
    if a == "." then b
    else if b == "." || StartsWith(a, b + "/") then a
    else b
  }

  lemma OverlapShares(a: string, b: string)
    requires Overlap(a, b)
    ensures RootOwns(a, Shared(a, b)) && RootOwns(b, Shared(a, b))
  {}

  // --------------------------------------------------------- configuration

  /** All roots, in the order the check meets them. */
  function Rows(targets: seq<Target>): seq<string> {
    if targets == [] then [] else targets[0].roots + Rows(targets[1..])
  }

  ghost predicate Disjoint(rows: seq<string>) {
    forall i, j :: 0 <= i < j < |rows| ==> !Overlap(rows[j], rows[i])
  }

  lemma {:induction false} RowsSnoc(targets: seq<Target>, last: Target)
    ensures Rows(targets + [last]) == Rows(targets) + last.roots
  {
    if targets == [] {
      assert [last][1..] == [];
    } else {
      assert (targets + [last])[1..] == targets[1..] + [last];
      RowsSnoc(targets[1..], last);
    }
  }

  lemma {:induction false} RowsPrefix(targets: seq<Target>, n: nat)
    requires n <= |targets|
    ensures Rows(targets[..n]) <= Rows(targets)
  {
    if n > 0 {
      assert targets[..n][1..] == targets[1..][..n - 1];
      RowsPrefix(targets[1..], n - 1);
    }
  }

  /** The root check of `load_config`. */
  method RootsAccepted(targets: seq<Target>, allowOverlap: bool) returns (ok: bool)
    ensures ok <==> allowOverlap || Disjoint(Rows(targets))
  {
    var rows: seq<string> := [];
    var i := 0;
    while i < |targets|
      invariant 0 <= i <= |targets|
      invariant rows == Rows(targets[..i])
      invariant allowOverlap || Disjoint(rows)
    {
      var roots := targets[i].roots;
      assert targets[..i + 1] == targets[..i] + [targets[i]];
      RowsSnoc(targets[..i], targets[i]);
      RowsPrefix(targets, i + 1);
      var k := 0;
      while k < |roots|
        invariant 0 <= k <= |roots|
        invariant rows == Rows(targets[..i]) + roots[..k]
        invariant allowOverlap || Disjoint(rows)
      {
        var clash := OverlapsAny(roots[k], rows);
        if clash && !allowOverlap {
          ghost var all := Rows(targets);
          assert rows + [roots[k]] <= Rows(targets[..i + 1]);
          assert all[|rows|] == roots[k] && all[..|rows|] == rows;
          return false;
        }
        assert roots[..k + 1] == roots[..k] + [roots[k]];
        rows := rows + [roots[k]];
        k := k + 1;
      }
      assert roots[..k] == roots;
      i := i + 1;
    }
    assert targets[..i] == targets;
    ok := true;
  }

  method OverlapsAny(root: string, rows: seq<string>) returns (clash: bool)
    ensures clash <==> exists i :: 0 <= i < |rows| && Overlap(root, rows[i])
  {
    var i := 0;
    while i < |rows|
      invariant 0 <= i <= |rows|
      invariant forall j :: 0 <= j < i ==> !Overlap(root, rows[j])
    {
      if Overlap(root, rows[i]) {
        return true;
      }
      i := i + 1;
    }
    clash := false;
  }

  // ------------------------------------------------------------ resolution

  /** Indices, below `n`, of the targets that own a normalised path. */
  ghost function Owners(targets: seq<Target>, source: string, n: nat): (o: seq<nat>)
    requires n <= |targets|
    ensures forall i :: 0 <= i < |o| ==> o[i] < n
  {
    if n == 0 then []
    else if Owns(targets[n - 1], source) then Owners(targets, source, n - 1) + [n - 1]
    else Owners(targets, source, n - 1)
  }

  /** What a path resolves to. */
  ghost function PathResult(targets: seq<Target>, path: string): Result<Target, Failure> {
    match SafeRelative(path)
    case None => Err(BadSourcePath)
    case Some(source) => SourceResult(targets, source)
  }

  ghost function SourceResult(targets: seq<Target>, source: string): Result<Target, Failure> {
    OwnerResult(targets, Owners(targets, source, |targets|))
  }

  function OwnerResult(targets: seq<Target>, owners: seq<nat>): Result<Target, Failure>
    requires forall i :: 0 <= i < |owners| ==> owners[i] < |targets|
  {
    if |owners| > 1 then Err(TargetAmbiguous)
    else if owners == [] then Err(TargetNotFound)
    else Ok(targets[owners[0]])
  }

  method OwnsPath(t: Target, source: string) returns (owns: bool)
    ensures owns <==> Owns(t, source)
  {
    var i := 0;
    while i < |t.roots|
      invariant 0 <= i <= |t.roots|
      invariant forall j :: 0 <= j < i ==> !RootOwns(t.roots[j], source)
    {
      if RootOwns(t.roots[i], source) {
        return true;
      }
      i := i + 1;
    }
    owns := false;
  }

  /** `resolve_target` by source path. */
  method ResolvePath(targets: seq<Target>, path: string) returns (r: Result<Target, Failure>)
    ensures r == PathResult(targets, path)
  {
    var source := SafeRelative(path);
    if source.None? {
      return Err(BadSourcePath);
    }
    var matches: seq<nat> := [];
    var i := 0;
    while i < |targets|
      invariant 0 <= i <= |targets|
      invariant matches == Owners(targets, source.value, i)
      invariant forall k :: 0 <= k < |matches| ==> matches[k] < |targets|
    {
      var owns := OwnsPath(targets[i], source.value);
      if owns {
        matches := matches + [i];
      }
      i := i + 1;
    }
    r := OwnerResult(targets, matches);
  }

  // ---------------------------------------------------------- main results

  lemma {:induction false} OwnersAre(targets: seq<Target>, source: string, n: nat)
    requires n <= |targets|
    ensures var o := Owners(targets, source, n);
      && (forall i :: 0 <= i < |o| ==> o[i] < n && Owns(targets[o[i]], source))
      && (forall i, j :: 0 <= i < j < |o| ==> o[i] < o[j])
      && (forall x: nat :: x < n && Owns(targets[x], source) ==> x in o)
  {
    if n > 0 {
      OwnersAre(targets, source, n - 1);
      var front, o := Owners(targets, source, n - 1), Owners(targets, source, n);
      assert o == front || o == front + [n - 1];
      forall x: nat | x < n && Owns(targets[x], source) ensures x in o {
        if x < n - 1 {
          assert x in front;
        }
      }
    }
  }

  /** Roots of two different targets overlap. */
  ghost predicate CrossOverlap(targets: seq<Target>) {
    exists i, j, x, y ::
      0 <= i < j < |targets| && 0 <= x < |targets[i].roots| && 0 <= y < |targets[j].roots|
      && Overlap(targets[i].roots[x], targets[j].roots[y])
  }

  lemma {:induction false} RowOf(targets: seq<Target>, i: nat, x: nat) returns (p: nat)
    requires i < |targets| && x < |targets[i].roots|
    ensures p < |Rows(targets)| && Rows(targets)[p] == targets[i].roots[x]
  {
    if i == 0 {
      p := x;
    } else {
      p := RowOf(targets[1..], i - 1, x);
      p := p + |targets[0].roots|;
    }
  }

  lemma {:induction false} RowPair(targets: seq<Target>, i: nat, x: nat, j: nat, y: nat) returns (p: nat, q: nat)
    requires i < j < |targets| && x < |targets[i].roots| && y < |targets[j].roots|
    ensures p < q < |Rows(targets)|
    ensures Rows(targets)[p] == targets[i].roots[x] && Rows(targets)[q] == targets[j].roots[y]
  {
    if i == 0 {
      p := x;
      q := RowOf(targets[1..], j - 1, y);
      q := q + |targets[0].roots|;
    } else {
      p, q := RowPair(targets[1..], i - 1, x, j - 1, y);
      p, q := p + |targets[0].roots|, q + |targets[0].roots|;
    }
  }

  lemma DisjointRowsDoNotCross(targets: seq<Target>)
    requires Disjoint(Rows(targets))
    ensures !CrossOverlap(targets)
  {
    forall i, j, x, y |
      0 <= i < j < |targets| && 0 <= x < |targets[i].roots| && 0 <= y < |targets[j].roots|
      ensures !Overlap(targets[i].roots[x], targets[j].roots[y])
    {
      var p, q := RowPair(targets, i, x, j, y);
      assert !Overlap(Rows(targets)[q], Rows(targets)[p]);
    }
  }

  lemma TwoOwnersCross(targets: seq<Target>, source: string, i: nat, j: nat)
    requires i < j < |targets| && Owns(targets[i], source) && Owns(targets[j], source)
    ensures CrossOverlap(targets)
  {
    var x :| 0 <= x < |targets[i].roots| && RootOwns(targets[i].roots[x], source);
    var y :| 0 <= y < |targets[j].roots| && RootOwns(targets[j].roots[y], source);
    CommonPathOverlaps(targets[i].roots[x], targets[j].roots[y], source);
  }

  // With disjoint roots a path has at most one owner.
  lemma AtMostOneOwner(targets: seq<Target>, source: string, i: nat, j: nat)
    requires Disjoint(Rows(targets)) && i < j < |targets|
    ensures !(Owns(targets[i], source) && Owns(targets[j], source))
  {
    DisjointRowsDoNotCross(targets);
    if Owns(targets[i], source) && Owns(targets[j], source) {
      TwoOwnersCross(targets, source, i, j);
    }
  }

  // A source is ambiguous exactly when two targets own it.
  lemma AmbiguousIffTwoOwners(targets: seq<Target>, source: string)
    ensures SourceResult(targets, source) == Err(TargetAmbiguous)
      <==> exists i, j :: 0 <= i < j < |targets| && Owns(targets[i], source) && Owns(targets[j], source)
  {
    OwnersAre(targets, source, |targets|);
    var o := Owners(targets, source, |targets|);
    if |o| > 1 {
      assert Owns(targets[o[0]], source) && Owns(targets[o[1]], source);
    }
    if i, j :| 0 <= i < j < |targets| && Owns(targets[i], source) && Owns(targets[j], source) {
      assert i in o && j in o;
    }
  }

  lemma OwnerOwns(targets: seq<Target>, source: string, k: nat)
    requires k < |Owners(targets, source, |targets|)|
    ensures Owns(targets[Owners(targets, source, |targets|)[k]], source)
  {
    OwnersAre(targets, source, |targets|);
  }

  // A source resolves to a target exactly when that target is its one owner,
  // and is not found exactly when it has none.
  lemma ResolvesToOwner(targets: seq<Target>, source: string)
    ensures SourceResult(targets, source) == Err(TargetNotFound)
      <==> forall i :: 0 <= i < |targets| ==> !Owns(targets[i], source)
    ensures SourceResult(targets, source).Ok?
      <==> exists i :: OnlyOwner(targets, source, i)
    ensures forall i :: OnlyOwner(targets, source, i) ==> SourceResult(targets, source) == Ok(targets[i])
  {
    OwnersAre(targets, source, |targets|);
    var o := Owners(targets, source, |targets|);
    if o != [] {
      OwnerOwns(targets, source, 0);
      if |o| == 1 {
        assert OnlyOwner(targets, source, o[0]);
      }
    }
    forall i | OnlyOwner(targets, source, i) ensures o == [i] {
      assert i in o;
      assert forall k :: 0 <= k < |o| ==> o[k] == i;
      assert o[0] == o[|o| - 1];
    }
  }

  ghost predicate OnlyOwner(targets: seq<Target>, source: string, i: int) {
    && 0 <= i < |targets| && Owns(targets[i], source)
    && forall j :: 0 <= j < |targets| && j != i ==> !Owns(targets[j], source)
  }

  // A configuration accepted with overlaps disallowed never finds a path
  // ambiguous.
  lemma AcceptedIsUnambiguous(targets: seq<Target>, path: string)
    requires Disjoint(Rows(targets))
    ensures PathResult(targets, path) != Err(TargetAmbiguous)
  {
    if SafeRelative(path).Some? {
      var source := SafeRelative(path).value;
      AmbiguousIffTwoOwners(targets, source);
      forall i, j | 0 <= i < j < |targets|
        ensures !(Owns(targets[i], source) && Owns(targets[j], source))
      {
        AtMostOneOwner(targets, source, i, j);
      }
    }
  }

  /** Every root is what normalising gave for some configured text. */
  ghost predicate Normalised(targets: seq<Target>) {
    forall i, x :: 0 <= i < |targets| && 0 <= x < |targets[i].roots| ==> Configured(targets[i].roots[x])
  }

  ghost predicate Configured(root: string) {
    exists raw :: SafeRelative(raw) == Some(root)
  }

  lemma CrossOverlapIsAmbiguous(targets: seq<Target>) returns (source: string)
    requires Normalised(targets) && CrossOverlap(targets)
    ensures Configured(source) && SourceResult(targets, source) == Err(TargetAmbiguous)
  {
    var i, j, x, y :|
      0 <= i < j < |targets| && 0 <= x < |targets[i].roots| && 0 <= y < |targets[j].roots|
      && Overlap(targets[i].roots[x], targets[j].roots[y]);
    var a, b := targets[i].roots[x], targets[j].roots[y];
    assert Configured(a) && Configured(b);
    source := Shared(a, b);
    OverlapShares(a, b);
    assert Owns(targets[i], source) && Owns(targets[j], source);
    AmbiguousIffTwoOwners(targets, source);
  }

  // Whether overlaps were allowed or not, some path is ambiguous exactly when
  // roots of two different targets overlap.
  lemma AmbiguousIffCrossOverlap(targets: seq<Target>)
    requires Normalised(targets)
    ensures (exists path :: PathResult(targets, path) == Err(TargetAmbiguous)) <==> CrossOverlap(targets)
  {
    if path :| PathResult(targets, path) == Err(TargetAmbiguous) {
      var source := SafeRelative(path).value;
      AmbiguousIffTwoOwners(targets, source);
      var i, j :| 0 <= i < j < |targets| && Owns(targets[i], source) && Owns(targets[j], source);
      TwoOwnersCross(targets, source, i, j);
    }
    if CrossOverlap(targets) {
      var source := CrossOverlapIsAmbiguous(targets);
      var raw :| SafeRelative(raw) == Some(source);
      assert PathResult(targets, raw) == SourceResult(targets, source);
    }
  }
}

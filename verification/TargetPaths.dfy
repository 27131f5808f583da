// What normalised paths, owning and overlapping mean: a path is the list of its
// names (scripts/ores_rpc_config.py).
module TargetPaths {
  import opened Targets
  import T = PathTemplates

  /** The names of a normalised path, none for the root. */
  function Names(path: string): seq<string> {
    if path == "." then [] else T.SplitSlash(path)
  }

  // ------------------------------------------------- splitting at slashes

  lemma SplitStep(c: char, s: string)
    ensures var r := T.SplitSlash(s);
      T.SplitSlash([c] + s) == if c == '/' then [""] + r else [[c] + r[0]] + r[1..]
  {
    assert ([c] + s)[1..] == s;
  }

  lemma HeadJoins(c: char, p: seq<string>, q: seq<string>)
    requires p != []
    ensures [[c] + (p + q)[0]] + (p + q)[1..] == ([[c] + p[0]] + p[1..]) + q
    ensures [""] + (p + q) == ([""] + p) + q
  {}

  lemma ConcatStep(c: char, x: string, y: string, q: seq<string>)
    requires T.SplitSlash(y) == T.SplitSlash(x) + q
    ensures T.SplitSlash([c] + y) == T.SplitSlash([c] + x) + q
  {
    SplitStep(c, x);
    SplitStep(c, y);
    HeadJoins(c, T.SplitSlash(x), q);
  }

  lemma {:induction false} SplitConcat(a: string, b: string)
    ensures T.SplitSlash(a + ("/" + b)) == T.SplitSlash(a) + T.SplitSlash(b)
  {
    if a == "" {
      assert a + ("/" + b) == ['/'] + b;
      SplitStep('/', b);
    } else {
      SplitConcat(a[1..], b);
      ConcatStep(a[0], a[1..], a[1..] + ("/" + b), T.SplitSlash(b));
      assert [a[0]] + a[1..] == a && [a[0]] + (a[1..] + ("/" + b)) == a + ("/" + b);
    }
  }

  lemma {:induction false} JoinSplit(s: string)
    ensures Join(T.SplitSlash(s)) == s
  {
    if s != "" {
      JoinSplit(s[1..]);
      var rest := T.SplitSlash(s[1..]);
      if s[0] == '/' {
        assert ([""] + rest)[1..] == rest;
      } else {
        assert ([[s[0]] + rest[0]] + rest[1..])[1..] == rest[1..];
      }
    }
  }

  lemma SplitInjective(a: string, b: string)
    requires T.SplitSlash(a) == T.SplitSlash(b)
    ensures a == b
  {
    JoinSplit(a);
    JoinSplit(b);
  }

  lemma SplitTail(whole: string, names: seq<string>, more: seq<string>)
    requires T.SplitSlash(whole) == names + more && names != [] && more != []
    ensures Join(names) + ("/" + Join(more)) == whole
  {
    SplitPartsArePlain(whole);
    assert forall i :: 0 <= i < |names| ==> names[i] == (names + more)[i];
    assert forall i :: 0 <= i < |more| ==> more[i] == (names + more)[|names| + i];
    SplitJoin(names);
    SplitJoin(more);
    SplitConcat(Join(names), Join(more));
    SplitInjective(Join(names) + ("/" + Join(more)), whole);
  }

  // ----------------------------------------------------- owning, overlap

  lemma BelowSplits(root: string, source: string)
    requires StartsWith(source, root + "/")
    ensures T.SplitSlash(root) < T.SplitSlash(source)
  {
    var rest := source[|root| + 1..];
    assert source == (root + "/") + rest;
    assert source == root + ("/" + rest);
    SplitConcat(root, rest);
  }

  lemma BelowJoins(root: string, source: string, more: seq<string>)
    requires T.SplitSlash(source) == T.SplitSlash(root) + more && more != []
    ensures StartsWith(source, root + "/")
  {
    SplitTail(source, T.SplitSlash(root), more);
    JoinSplit(root);
    assert root + ("/" + Join(more)) == (root + "/") + Join(more);
  }

  lemma BelowIff(root: string, source: string)
    ensures StartsWith(source, root + "/") <==> T.SplitSlash(root) < T.SplitSlash(source)
  {
    var a, b := T.SplitSlash(root), T.SplitSlash(source);
    if StartsWith(source, root + "/") {
      BelowSplits(root, source);
    }
    if a < b {
      assert b == a + b[|a|..];
      BelowJoins(root, source, b[|a|..]);
    }
  }

  lemma SameIff(root: string, source: string)
    ensures root == source <==> T.SplitSlash(root) == T.SplitSlash(source)
  {
    if T.SplitSlash(root) == T.SplitSlash(source) {
      SplitInjective(root, source);
    }
  }

  lemma RootAlone(root: string)
    ensures T.SplitSlash(root) <= ["."] ==> root == "."
    ensures T.SplitSlash(".") == ["."]
  {
    T.SplitWhole(".");
    if T.SplitSlash(root) <= ["."] {
      assert T.SplitSlash(root) == ["."];
      SplitInjective(root, ".");
    }
  }

  // A root owns a path exactly if the path begins with the root's names.
  lemma OwnsIffNamesBegin(root: string, source: string)
    ensures RootOwns(root, source) <==> Names(root) <= Names(source)
  {
    BelowIff(root, source);
    SameIff(root, source);
    RootAlone(root);
  }

  // Two roots overlap exactly if one begins with the names of the other.
  lemma OverlapIffNamesBegin(left: string, right: string)
    ensures Overlap(left, right) <==> Names(left) <= Names(right) || Names(right) <= Names(left)
  {
    OwnsIffNamesBegin(left, right);
    OwnsIffNamesBegin(right, left);
  }

  // ---------------------------------------------------------- normalising

  // Empty segments and dots are left out, the others kept in order.
  lemma {:induction false} PartsSnoc(segments: seq<string>, last: string)
    ensures Parts(segments + [last]) == Parts(segments) + if last in ["", "."] then [] else [last]
    ensures Parts([]) == []
  {
    if segments == [] {
      assert [last][1..] == [] && segments + [last] == [last];
    } else {
      assert (segments + [last])[0] == segments[0] && (segments + [last])[1..] == segments[1..] + [last];
      PartsSnoc(segments[1..], last);
    }
  }

  predicate Relative(value: string) {
    && 0 < |value| <= 255
    && (forall i :: 0 <= i < |value| ==> value[i] != '\\')
    && value[0] != '/'
    && !(|value| >= 2 && value[1] == ':' && ('a' <= value[0] <= 'z' || 'A' <= value[0] <= 'Z'))
    && forall k :: 0 <= k < |T.SplitSlash(value)| ==> T.SplitSlash(value)[k] != ".."
  }

  lemma {:induction false} PartsHold(segments: seq<string>, part: string)
    ensures part in Parts(segments) <==> part in segments && part != "" && part != "."
  {
    if segments != [] {
      PartsHold(segments[1..], part);
      assert segments == [segments[0]] + segments[1..];
    }
  }

  // A path is accepted exactly if it is relative and never steps up, and its
  // names are its segments without the empty ones and the dots.
  lemma NormalisedIs(value: string)
    ensures SafeRelative(value).Some? <==> Relative(value)
    ensures SafeRelative(value).Some? ==> Names(SafeRelative(value).value) == Parts(T.SplitSlash(value))
  {
    var parts := Parts(T.SplitSlash(value));
    PartsHold(T.SplitSlash(value), "..");
    SplitPartsArePlain(value);
    PartsAreSegments(T.SplitSlash(value));
    if parts != [] {
      SplitJoin(parts);
      RootAlone(Join(parts));
      assert parts[0] != "." && Join(parts) != ".";
    }
  }
}

// The canonical order of a frame's `meta` members: a stable sort by name, with
// names compared as their UTF-8 bytes.
module MetaOrder {
  import opened Basics
  import Utf8

  type Pairs = seq<(string, string)>

  predicate NameLess(a: string, b: string) {
    LexLess(Utf8.Encode(a), Utf8.Encode(b))
  }

  function InsertByName(p: (string, string), s: Pairs): Pairs {
    if s == [] || !NameLess(s[0].0, p.0) then [p] + s
    else [s[0]] + InsertByName(p, s[1..])
  }

  /** `sort_by(|left, right| left.0.cmp(&right.0))`, which is stable. */
  function SortByName(s: Pairs): Pairs {
    if s == [] then [] else InsertByName(s[0], SortByName(s[1..]))
  }

  ghost predicate DistinctNames(s: Pairs) {
    forall i, j :: 0 <= i < j < |s| ==> s[i].0 != s[j].0
  }

  ghost predicate StrictlySorted(s: Pairs) {
    forall i, j :: 0 <= i < j < |s| ==> NameLess(s[i].0, s[j].0)
  }

  lemma NamesTotal(a: string, b: string)
    ensures NameLess(a, b) || a == b || NameLess(b, a)
    ensures !(NameLess(a, b) && NameLess(b, a)) && !NameLess(a, a)
  {
    LexTotal(Utf8.Encode(a), Utf8.Encode(b));
    if Utf8.Encode(a) == Utf8.Encode(b) {
      Utf8.EncodeInjective(a, b);
    }
  }

  lemma MultisetCons<T>(x: T, s: seq<T>)
    ensures multiset([x] + s) == multiset{x} + multiset(s)
  {}

  lemma {:induction false} InsertPermutes(p: (string, string), s: Pairs)
    ensures multiset(InsertByName(p, s)) == multiset{p} + multiset(s)
  {
    if s == [] || !NameLess(s[0].0, p.0) {
      MultisetCons(p, s);
    } else {
      var head, rest := s[0], s[1..];
      InsertPermutes(p, rest);
      MultisetCons(head, InsertByName(p, rest));
      MultisetCons(head, rest);
      assert s == [head] + rest;
    }
  }

  lemma {:induction false} SortPermutes(s: Pairs)
    ensures multiset(SortByName(s)) == multiset(s)
  {
    if s != [] {
      SortPermutes(s[1..]);
      InsertPermutes(s[0], SortByName(s[1..]));
      assert s == [s[0]] + s[1..];
    }
  }

  lemma {:induction false} InsertSorts(p: (string, string), s: Pairs)
    requires StrictlySorted(s)
    requires forall i :: 0 <= i < |s| ==> s[i].0 != p.0
    ensures StrictlySorted(InsertByName(p, s))
  {
    if s != [] {
      NamesTotal(s[0].0, p.0);
      if NameLess(s[0].0, p.0) {
        InsertSorts(p, s[1..]);
        InsertPermutes(p, s[1..]);
        var rest := InsertByName(p, s[1..]);
        forall i | 0 <= i < |rest| ensures NameLess(s[0].0, rest[i].0) {
          assert rest[i] in multiset(rest);
          assert rest[i] == p || rest[i] in s[1..];
        }
      } else {
        forall i | 0 <= i < |s| ensures NameLess(p.0, s[i].0) {
          if i > 0 {
            LexTransitive(Utf8.Encode(p.0), Utf8.Encode(s[0].0), Utf8.Encode(s[i].0));
          }
        }
      }
    }
  }

  lemma {:induction false} SortSorts(s: Pairs)
    requires DistinctNames(s)
    ensures StrictlySorted(SortByName(s))
  {
    if s != [] {
      SortSorts(s[1..]);
      SortPermutes(s[1..]);
      var t := SortByName(s[1..]);
      forall i | 0 <= i < |t| ensures t[i].0 != s[0].0 {
        assert t[i] in multiset(s[1..]);
        var j :| 0 <= j < |s[1..]| && s[1..][j] == t[i];
        assert s[j + 1] == t[i];
      }
      InsertSorts(s[0], t);
    }
  }

  lemma SortedDistinct(s: Pairs)
    requires StrictlySorted(s)
    ensures DistinctNames(s)
  {
    forall i, j | 0 <= i < j < |s| ensures s[i].0 != s[j].0 {
      NamesTotal(s[i].0, s[j].0);
    }
  }

  // Two strictly sorted lists with the same entries are the same list.
  lemma {:induction false} SortedUnique(a: Pairs, b: Pairs)
    requires StrictlySorted(a) && StrictlySorted(b)
    requires multiset(a) == multiset(b)
    ensures a == b
  {
    assert |multiset(a)| == |a| && |multiset(b)| == |b|;
    if a != [] {
      var x, y := a[0], b[0];
      assert a == [x] + a[1..] && b == [y] + b[1..];
      assert x in multiset(b) && y in multiset(a);
      SameHead(a, b);
      SameTails(x, a[1..], b[1..]);
      SortedUnique(a[1..], b[1..]);
    }
  }

  lemma SameTails(x: (string, string), a: Pairs, b: Pairs)
    requires multiset([x] + a) == multiset([x] + b)
    ensures multiset(a) == multiset(b)
  {
    MultisetCons(x, a);
    MultisetCons(x, b);
    assert multiset(a) == multiset([x] + a) - multiset{x};
    assert multiset(b) == multiset([x] + b) - multiset{x};
  }

  lemma SameHead(a: Pairs, b: Pairs)
    requires StrictlySorted(a) && StrictlySorted(b)
    requires a != [] && b != [] && a[0] in b && b[0] in a
    ensures a[0] == b[0]
  {
    NamesTotal(a[0].0, b[0].0);
    var i :| 0 <= i < |b| && b[i] == a[0];
    var j :| 0 <= j < |a| && a[j] == b[0];
  }

  // Sorting forgets exactly the order, and is idempotent.
  lemma SortCanonical(a: Pairs, b: Pairs)
    requires DistinctNames(a) && DistinctNames(b)
    ensures SortByName(a) == SortByName(b) <==> multiset(a) == multiset(b)
    ensures SortByName(SortByName(a)) == SortByName(a)
    ensures DistinctNames(SortByName(a))
  {
    SortPermutes(a);
    SortPermutes(b);
    SortSorts(a);
    SortSorts(b);
    SortedDistinct(SortByName(a));
    SortPermutes(SortByName(a));
    SortSorts(SortByName(a));
    SortedUnique(SortByName(SortByName(a)), SortByName(a));
    if multiset(a) == multiset(b) {
      SortedUnique(SortByName(a), SortByName(b));
    }
  }
}

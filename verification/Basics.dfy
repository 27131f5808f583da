// Shared vocabulary: optional values, results, and the orderings and
// renderings that several components rely on.
module Basics {

  datatype Option<+T> = None | Some(value: T)

  datatype Result<+T, +E> = Ok(value: T) | Err(error: E)

  type Byte = b: int | 0 <= b < 256

  const HEX_LOWER: string := "0123456789abcdef"
  const HEX_UPPER: string := "0123456789ABCDEF"

  // ------------------------------------------------------------ sequences

  ghost predicate Distinct<T>(s: seq<T>) {
    forall i, j :: 0 <= i < j < |s| ==> s[i] != s[j]
  }

  lemma DropPrefix<T>(a: seq<T>, b: seq<T>)
    ensures (a + b)[|a|..] == b
    ensures (a + b)[..|a|] == a
  {}

  /** Concatenation of a list of byte or character blocks. */
  function Flatten<T>(blocks: seq<seq<T>>): seq<T> {
    if blocks == [] then [] else blocks[0] + Flatten(blocks[1..])
  }

  // A sequence of distinct members of a finite set is no longer than the set.
  lemma {:induction false} DistinctBound<T>(s: seq<T>, universe: set<T>)
    requires Distinct(s)
    requires forall x :: x in s ==> x in universe
    ensures |s| <= |universe|
  {
    if s != [] {
      var rest := s[1..];
      forall x | x in rest ensures x in universe - {s[0]} {
        var i :| 0 <= i < |rest| && rest[i] == x;
        assert s[i + 1] == x;
      }
      DistinctBound(rest, universe - {s[0]});
    }
  }

  // ------------------------------------------------- lexicographic order

  /** Strict lexicographic order on byte strings, as `str::cmp` decides it. */
  predicate LexLess(a: seq<Byte>, b: seq<Byte>) {
    if b == [] then false
    else if a == [] then true
    else a[0] < b[0] || (a[0] == b[0] && LexLess(a[1..], b[1..]))
  }

  lemma {:induction false} LexTotal(a: seq<Byte>, b: seq<Byte>)
    ensures LexLess(a, b) || a == b || LexLess(b, a)
    ensures !(LexLess(a, b) && LexLess(b, a))
    ensures !LexLess(a, a)
  {
    if a != [] && b != [] && a[0] == b[0] {
      LexTotal(a[1..], b[1..]);
      if a[1..] == b[1..] {
        assert a == [a[0]] + a[1..] && b == [b[0]] + b[1..];
      }
    }
    if a != [] {
      LexTotal(a[1..], a[1..]);
    }
  }

  lemma {:induction false} LexTransitive(a: seq<Byte>, b: seq<Byte>, c: seq<Byte>)
    requires LexLess(a, b) && LexLess(b, c)
    ensures LexLess(a, c)
  {
    if a != [] && a[0] == b[0] && b[0] == c[0] {
      LexTransitive(a[1..], b[1..], c[1..]);
    }
  }

  // ---------------------------------------------------- decimal rendering

  /** `to_string` of an unsigned integer. */
  function Decimal(n: nat): string {
    if n < 10 then [Digit(n)] else Decimal(n / 10) + [Digit(n % 10)]
  }

  function Digit(d: nat): (c: char)
    requires d < 10
    ensures '0' <= c <= '9' && c as int - '0' as int == d
  {
    (d + '0' as int) as char
  }

  predicate AllDigits(s: string) {
    forall i :: 0 <= i < |s| ==> '0' <= s[i] <= '9'
  }

  function DecimalValue(s: string): nat
    requires AllDigits(s)
  {
    if s == [] then 0
    else
      var last := s[|s| - 1];
      assert '0' <= last <= '9';
      DecimalValue(s[..|s| - 1]) * 10 + (last as int - '0' as int)
  }

  lemma {:induction false} DecimalReadsBack(n: nat)
    ensures AllDigits(Decimal(n))
    ensures DecimalValue(Decimal(n)) == n
    ensures Decimal(n) != "" && (Decimal(n)[0] == '0' ==> n == 0)
  {
    if n >= 10 {
      DecimalReadsBack(n / 10);
      var s := Decimal(n);
      assert s[..|s| - 1] == Decimal(n / 10);
    } else {
      assert Decimal(n)[..0] == "";
    }
  }
}

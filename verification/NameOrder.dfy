// The order of `meta` names: comparing UTF-8 bytes is comparing characters by
// their code points, so every runtime may sort the strings it has.
module NameOrder {
  import opened Basics
  import opened MetaOrder
  import Utf8

  /** Where two texts first differ, one ends or has the smaller character. */
  predicate FirstDifference(a: string, b: string, k: nat) {
    && k <= |a| && k < |b| && a[..k] == b[..k]
    && (k == |a| || a[k] as int < b[k] as int)
  }

  /** Dictionary order by code points. */
  ghost predicate Before(a: string, b: string) {
    exists k: nat :: FirstDifference(a, b, k)
  }

  // --------------------------------------------------------- one character

  lemma {:induction false} LexAt(x: seq<Byte>, y: seq<Byte>, k: nat)
    requires k < |x| && k < |y| && x[..k] == y[..k] && x[k] < y[k]
    ensures LexLess(x, y)
  {
    if k > 0 {
      assert x[0] == x[..k][0] && y[0] == y[..k][0];
      assert x[1..][..k - 1] == x[..k][1..] && y[1..][..k - 1] == y[..k][1..];
      LexAt(x[1..], y[1..], k - 1);
    }
  }

  /** Base-64 digits, the first one of any size, behind their marks. */
  function Marked(mark: Byte, digits: seq<nat>): (b: seq<int>)
    requires digits != []
  {
    seq(|digits|, i requires 0 <= i < |digits| => (if i == 0 then mark else 0x80) + digits[i])
  }

  ghost predicate Base64(digits: seq<nat>) {
    digits != [] && forall i :: 0 < i < |digits| ==> digits[i] < 64
  }

  function Number(digits: seq<nat>): nat {
    if digits == [] then 0 else Number(digits[..|digits| - 1]) * 64 + digits[|digits| - 1]
  }

  // Of two numbers with as many digits the smaller has the smaller digit where
  // they first differ.
  lemma {:induction false} SmallerDigit(x: seq<nat>, y: seq<nat>) returns (k: nat)
    requires Base64(x) && Base64(y) && |x| == |y| && Number(x) < Number(y)
    ensures k < |x| && x[..k] == y[..k] && x[k] < y[k]
  {
    var last := |x| - 1;
    if Number(x[..last]) < Number(y[..last]) {
      k := SmallerDigit(x[..last], y[..last]);
      assert x[..last][..k] == x[..k] && y[..last][..k] == y[..k];
    } else {
      k := last;
      SameDigits(x[..last], y[..last]);
    }
  }

  lemma {:induction false} SameDigits(x: seq<nat>, y: seq<nat>)
    requires |x| == |y| && Number(x) == Number(y)
    requires x == [] || (Base64(x) && Base64(y))
    ensures x == y
  {
    if |x| > 1 {
      var last := |x| - 1;
      SameDigits(x[..last], y[..last]);
      assert x == x[..last] + [x[last]] && y == y[..last] + [y[last]];
    } else if x != [] {
      assert x[..0] == [] && y[..0] == [];
    }
  }

  // The digits of a character and its mark.
  function DigitsOf(c: char): seq<nat> {
    var n := c as int;
    if n < 0x80 then [n]
    else if n < 0x800 then [n / 64, n % 64]
    else if n < 0x10000 then [n / 4096, n / 64 % 64, n % 64]
    else [n / 262144, n / 4096 % 64, n / 64 % 64, n % 64]
  }

  function MarkOf(size: nat): Byte {
    if size == 1 then 0 else if size == 2 then 0xC0 else if size == 3 then 0xE0 else 0xF0
  }

  lemma BytesAreDigits(c: char)
    ensures Base64(DigitsOf(c)) && Utf8.EncodeChar(c) == Marked(MarkOf(|DigitsOf(c)|), DigitsOf(c))
  {}

  lemma TwoDigits(a: nat, b: nat)
    ensures Number([a]) == a && Number([a, b]) == a * 64 + b
  {
    assert [a][..0] == [] && [a, b][..1] == [a];
  }

  lemma FourDigits(a: nat, b: nat, c: nat, d: nat)
    ensures Number([a, b, c]) == a * 4096 + b * 64 + c
    ensures Number([a, b, c, d]) == a * 262144 + b * 4096 + c * 64 + d
  {
    TwoDigits(a, b);
    assert [a, b, c][..2] == [a, b] && [a, b, c, d][..3] == [a, b, c];
  }

  lemma DigitsSpell(c: char)
    ensures Number(DigitsOf(c)) == c as int
  {
    var n := c as int;
    Utf8.Digits64(n);
    TwoDigits(n, 0);
    TwoDigits(n / 64, n % 64);
    FourDigits(n / 4096, n / 64 % 64, n % 64, 0);
    FourDigits(n / 262144, n / 4096 % 64, n / 64 % 64, n % 64);
  }

  lemma MarkedDiffer(mark: Byte, x: seq<nat>, y: seq<nat>, k: nat)
    requires k < |x| && k < |y| && x[..k] == y[..k] && x[k] < y[k]
    ensures Marked(mark, x)[..k] == Marked(mark, y)[..k] && Marked(mark, x)[k] < Marked(mark, y)[k]
  {
    assert forall i :: 0 <= i < k ==> x[i] == x[..k][i] && y[i] == y[..k][i];
  }

  lemma SizesGrow(c: char, d: char)
    requires c as int < d as int
    ensures |DigitsOf(c)| <= |DigitsOf(d)|
    ensures |DigitsOf(c)| < |DigitsOf(d)| ==> Utf8.EncodeChar(c)[0] < Utf8.EncodeChar(d)[0]
  {}

  // A smaller character has the smaller bytes.
  lemma SmallerBytes(c: char, d: char) returns (k: nat)
    requires c as int < d as int
    ensures var x, y := Utf8.EncodeChar(c), Utf8.EncodeChar(d);
      k < |x| && k < |y| && x[..k] == y[..k] && x[k] < y[k]
  {
    SizesGrow(c, d);
    BytesAreDigits(c);
    BytesAreDigits(d);
    if |DigitsOf(c)| < |DigitsOf(d)| {
      k := 0;
    } else {
      DigitsSpell(c);
      DigitsSpell(d);
      k := SmallerDigit(DigitsOf(c), DigitsOf(d));
      MarkedDiffer(MarkOf(|DigitsOf(c)|), DigitsOf(c), DigitsOf(d), k);
    }
  }

  lemma SmallerFirst(c: char, d: char, s: seq<Byte>, t: seq<Byte>)
    requires c as int < d as int
    ensures LexLess(Utf8.EncodeChar(c) + s, Utf8.EncodeChar(d) + t)
  {
    var k := SmallerBytes(c, d);
    var x, y := Utf8.EncodeChar(c), Utf8.EncodeChar(d);
    assert (x + s)[..k] == x[..k] && (y + t)[..k] == y[..k];
    LexAt(x + s, y + t, k);
  }

  // ------------------------------------------------------------ whole texts

  lemma {:induction false} SamePrefix(p: seq<Byte>, x: seq<Byte>, y: seq<Byte>)
    ensures LexLess(p + x, p + y) == LexLess(x, y)
  {
    if p == [] {
      assert p + x == x && p + y == y;
    } else {
      assert (p + x)[1..] == p[1..] + x && (p + y)[1..] == p[1..] + y;
      SamePrefix(p[1..], x, y);
    }
  }

  lemma BeforeTail(a: string, b: string)
    requires a != [] && b != [] && a[0] == b[0]
    ensures Before(a, b) <==> Before(a[1..], b[1..])
  {
    if k: nat :| FirstDifference(a, b, k) {
      assert k > 0;
      assert a[1..][..k - 1] == a[..k][1..] && b[1..][..k - 1] == b[..k][1..];
      assert FirstDifference(a[1..], b[1..], k - 1);
    }
    if k: nat :| FirstDifference(a[1..], b[1..], k) {
      assert a[..k + 1] == [a[0]] + a[1..][..k] && b[..k + 1] == [b[0]] + b[1..][..k];
      assert FirstDifference(a, b, k + 1);
    }
  }

  lemma PrefixHead(a: string, b: string, k: nat)
    requires FirstDifference(a, b, k) && k > 0
    ensures a[0] == b[0]
  {
    assert a[..k][0] == b[..k][0];
  }

  lemma BeforeHead(a: string, b: string)
    requires a != [] && b != [] && a[0] != b[0]
    ensures Before(a, b) <==> a[0] as int < b[0] as int
  {
    forall k: nat | FirstDifference(a, b, k) ensures k == 0 {
      if k > 0 {
        PrefixHead(a, b, k);
      }
    }
    if a[0] as int < b[0] as int {
      assert FirstDifference(a, b, 0);
    }
  }

  // Names are ordered by code points.
  lemma {:induction false} NameLessIffBefore(a: string, b: string)
    ensures NameLess(a, b) <==> Before(a, b)
  {
    if a == [] || b == [] {
      if b != [] {
        assert FirstDifference(a, b, 0);
      }
    } else if a[0] == b[0] {
      SamePrefix(Utf8.EncodeChar(a[0]), Utf8.Encode(a[1..]), Utf8.Encode(b[1..]));
      BeforeTail(a, b);
      NameLessIffBefore(a[1..], b[1..]);
    } else {
      BeforeHead(a, b);
      var s, t := Utf8.Encode(a[1..]), Utf8.Encode(b[1..]);
      if a[0] as int < b[0] as int {
        SmallerFirst(a[0], b[0], s, t);
      } else {
        SmallerFirst(b[0], a[0], t, s);
        LexTotal(Utf8.Encode(a), Utf8.Encode(b));
      }
    }
  }

  // Sorting `meta` rearranges its entries so that names ascend by code points.
  lemma SortAscends(s: Pairs)
    requires DistinctNames(s)
    ensures multiset(SortByName(s)) == multiset(s)
    ensures forall i, j :: 0 <= i < j < |SortByName(s)| ==> Before(SortByName(s)[i].0, SortByName(s)[j].0)
  {
    SortPermutes(s);
    SortSorts(s);
    forall i, j | 0 <= i < j < |SortByName(s)| ensures Before(SortByName(s)[i].0, SortByName(s)[j].0) {
      NameLessIffBefore(SortByName(s)[i].0, SortByName(s)[j].0);
    }
  }
}

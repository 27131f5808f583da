// How numbers are spelled (section 6 of RFC 8259), and that the parser takes
// exactly these spellings for numbers.
module JsonNumbers {
  import opened Basics
  import opened Json

  predicate Digits(s: string) { s != "" && AllDigits(s) }

  predicate IntText(s: string) { Digits(s) && (s[0] == '0' ==> |s| == 1) }

  predicate FractionText(s: string) { s == "" || (s[0] == '.' && Digits(s[1..])) }

  predicate ExponentText(s: string) {
    s == ""
    || ((s[0] == 'e' || s[0] == 'E')
        && (Digits(s[1..]) || (|s| >= 2 && (s[1] == '+' || s[1] == '-') && Digits(s[2..]))))
  }

  /** An optional fraction and an optional exponent. */
  ghost predicate TailText(s: string) {
    exists f, e :: s == f + e && FractionText(f) && ExponentText(e)
  }

  ghost predicate UnsignedText(s: string) {
    exists i, t :: s == i + t && IntText(i) && TailText(t)
  }

  /** An optional minus sign in front of an integer with its tail. */
  ghost predicate NumberText(s: string) {
    UnsignedText(s) || (s != "" && s[0] == '-' && UnsignedText(s[1..]))
  }

  // ------------------------------------------------- every number is read

  lemma {:induction false} RunIs(s: string, rest: string)
    requires AllDigits(s) && (rest == "" || !IsDigit(rest[0]))
    ensures DigitRun(s + rest) == |s|
  {
    if s == "" {
      assert s + rest == rest;
    } else {
      assert (s + rest)[1..] == s[1..] + rest;
      RunIs(s[1..], rest);
    }
  }

  lemma IntRead(s: string, rest: string)
    requires IntText(s) && (rest == "" || !IsDigit(rest[0]))
    ensures IntLength(s + rest) == Some(|s|)
  {
    RunIs(s, rest);
  }

  lemma FractionRead(s: string, rest: string)
    requires FractionText(s) && (rest == "" || (!IsDigit(rest[0]) && rest[0] != '.'))
    ensures FractionLength(s + rest) == Some(|s|)
  {
    if s == "" {
      assert s + rest == rest;
    } else {
      RunIs(s[1..], rest);
      assert (s + rest)[1..] == s[1..] + rest;
    }
  }

  lemma ExponentRead(s: string)
    requires ExponentText(s)
    ensures ExponentLength(s) == Some(|s|)
  {
    if s != "" {
      var k := if Digits(s[1..]) then 1 else 2;
      RunIs(s[k..], "");
      assert s[k..] + "" == s[k..];
      assert Digits(s[1..]) ==> IsDigit(s[1..][0]);
    }
  }

  lemma TailRead(s: string)
    requires TailText(s)
    ensures FractionExponentLength(s) == Some(|s|) && (s == "" || !IsDigit(s[0]))
  {
    var f, e :| s == f + e && FractionText(f) && ExponentText(e);
    FractionRead(f, e);
    ExponentRead(e);
    DropPrefix(f, e);
  }

  lemma UnsignedRead(s: string)
    requires UnsignedText(s)
    ensures UnsignedLength(s) == Some(|s|) && IsDigit(s[0])
  {
    var i, t :| s == i + t && IntText(i) && TailText(t);
    TailRead(t);
    IntRead(i, t);
    DropPrefix(i, t);
  }

  lemma NumberRead(s: string)
    requires NumberText(s)
    ensures IsNumber(s)
  {
    if UnsignedText(s) {
      UnsignedRead(s);
    } else {
      UnsignedRead(s[1..]);
    }
  }

  // --------------------------------------------- and nothing else is read

  lemma {:induction false} RunOfDigits(s: string)
    ensures AllDigits(s[..DigitRun(s)])
  {
    if s != "" && IsDigit(s[0]) {
      RunOfDigits(s[1..]);
    }
  }

  lemma IntIsText(s: string, n: nat)
    requires IntLength(s) == Some(n)
    ensures IntText(s[..n])
  {
    RunOfDigits(s);
  }

  lemma FractionIsText(s: string, n: nat)
    requires FractionLength(s) == Some(n)
    ensures FractionText(s[..n])
  {
    if n > 0 {
      RunOfDigits(s[1..]);
      assert s[..n][1..] == s[1..][..n - 1];
    }
  }

  lemma ExponentIsText(s: string, n: nat)
    requires ExponentLength(s) == Some(n)
    ensures ExponentText(s[..n])
  {
    if n > 0 {
      var k := if |s| >= 2 && (s[1] == '+' || s[1] == '-') then 2 else 1;
      RunOfDigits(s[k..]);
      assert s[..n][k..] == s[k..][..n - k];
    }
  }

  lemma TakeSplit(s: string, c: nat, n: nat)
    requires c <= n <= |s|
    ensures s[..n] == s[..c] + s[c..][..n - c]
  {}

  lemma TailIsText(s: string, n: nat)
    requires FractionExponentLength(s) == Some(n)
    ensures TailText(s[..n])
  {
    var c := FractionLength(s).value;
    FractionIsText(s, c);
    ExponentIsText(s[c..], n - c);
    TakeSplit(s, c, n);
  }

  lemma UnsignedIsText(s: string, n: nat)
    requires UnsignedLength(s) == Some(n)
    ensures UnsignedText(s[..n])
  {
    var b := IntLength(s).value;
    IntIsText(s, b);
    TailIsText(s[b..], n - b);
    TakeSplit(s, b, n);
  }

  lemma NumberIsText(s: string, n: nat)
    requires NumberLength(s) == Some(n)
    ensures NumberText(s[..n])
  {
    if s[0] == '-' {
      UnsignedIsText(s[1..], n - 1);
      assert s[..n][1..] == s[1..][..n - 1];
    } else {
      UnsignedIsText(s, n);
    }
  }

  // The tokens the parser takes for numbers are the numbers of the grammar.
  lemma NumberIffText(s: string)
    ensures IsNumber(s) <==> NumberText(s)
  {
    if IsNumber(s) {
      NumberIsText(s, |s|);
      assert s[..|s|] == s;
    }
    if NumberText(s) {
      NumberRead(s);
    }
  }
}

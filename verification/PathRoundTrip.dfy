// When a parameter's value survives the trip through the URL: built into the
// path (ridl/emit/rust.py), found again by template and decoded
// (runtime/rust/opto_sync.rs). The condition is exact for every template.
module PathRoundTrip {
  import opened Basics
  import opened Percent
  import opened PathTemplates
  import Utf8

  // ------------------------------------------- splitting the built path

  /** The template split at the slashes outside its placeholders. */
  function Segments(t: string): (r: seq<string>)
    ensures r != []
    decreases |t|
  {
    if t == "" then [""]
    else if t[0] == '{' && Find(t, '}').Some? then
      var end := Find(t, '}').value;
      var rest := Segments(t[end + 1..]);
      [t[..end + 1] + rest[0]] + rest[1..]
    else if t[0] == '/' then [""] + Segments(t[1..])
    else
      var rest := Segments(t[1..]);
      [[t[0]] + rest[0]] + rest[1..]
  }

  function SubstAll(segments: seq<string>, fill: Values): (r: seq<string>)
    ensures |r| == |segments|
    ensures forall i :: 0 <= i < |r| ==> r[i] == Subst(segments[i], fill)
  {
    if segments == [] then []
    else [Subst(segments[0], fill)] + SubstAll(segments[1..], fill)
  }

  lemma {:induction false} FirstIsPart(t: string, x: char)
    ensures x in Segments(t)[0] ==> x in t
    decreases |t|
  {
    if t == "" {
    } else if t[0] == '{' && Find(t, '}').Some? {
      var end := Find(t, '}').value;
      FirstIsPart(t[end + 1..], x);
      assert t == t[..end + 1] + t[end + 1..];
    } else if t[0] != '/' {
      FirstIsPart(t[1..], x);
    }
  }

  ghost predicate Unslashed(fill: Values) {
    forall n: string :: '/' !in fill(n)
  }

  // Since encoded values hold no slash, the path has the template's segments,
  // each with its values filled in.
  lemma {:induction false} SplitSubst(t: string, fill: Values)
    requires Unslashed(fill)
    ensures SplitSlash(Subst(t, fill)) == SubstAll(Segments(t), fill)
    decreases |t|, 1
  {
    if t == "" {
    } else if t[0] == '{' && Find(t, '}').Some? {
      SplitSubstPlaceholder(t, fill);
    } else if t[0] == '/' {
      SplitSubst(t[1..], fill);
      assert Subst(t, fill)[1..] == Subst(t[1..], fill);
      assert ([""] + Segments(t[1..]))[1..] == Segments(t[1..]);
    } else {
      SplitSubstChar(t, fill);
    }
  }

  lemma {:induction false} SplitSubstPlaceholder(t: string, fill: Values)
    requires Unslashed(fill) && t != "" && t[0] == '{' && Find(t, '}').Some?
    ensures SplitSlash(Subst(t, fill)) == SubstAll(Segments(t), fill)
    decreases |t|, 0
  {
    var end := Find(t, '}').value;
    var hole, rest := t[..end + 1], t[end + 1..];
    var value := fill(t[1..end]);
    SplitSubst(rest, fill);
    SplitAfter(value, Subst(rest, fill));
    var r := Segments(rest);
    var first := hole + r[0];
    assert first[..end + 1] == hole;
    assert first[..end] == t[..end] && first[end] == t[end];
    FindIs(first, '}', end);
    assert first[1..end] == t[1..end] && first[end + 1..] == r[0];
    assert Subst(first, fill) == value + Subst(r[0], fill);
    assert ([first] + r[1..])[1..] == r[1..];
    assert SubstAll(r, fill) == [Subst(r[0], fill)] + SubstAll(r[1..], fill);
  }

  lemma {:induction false} SplitSubstChar(t: string, fill: Values)
    requires Unslashed(fill) && t != "" && t[0] != '/' && !(t[0] == '{' && Find(t, '}').Some?)
    ensures SplitSlash(Subst(t, fill)) == SubstAll(Segments(t), fill)
    decreases |t|, 0
  {
    SplitSubst(t[1..], fill);
    var r := Segments(t[1..]);
    var first := [t[0]] + r[0];
    FirstIsPart(t[1..], '}');
    assert t[0] == '{' ==> '}' !in t[1..] && '}' !in first;
    assert first[1..] == r[0];
    assert Subst(first, fill) == [t[0]] + Subst(r[0], fill);
    var whole := Subst(t, fill);
    assert whole[0] == t[0] && whole[1..] == Subst(t[1..], fill);
    assert ([first] + r[1..])[1..] == r[1..];
  }

  // ----------------------------------------------------------- the lookup

  /** Where the lookup stops. */
  function FirstAt(expected: seq<string>, wanted: string): (r: Option<nat>)
    ensures r.Some? ==> r.value < |expected| && expected[r.value] == wanted
    ensures r.None? <==> wanted !in expected
  {
    if expected == [] then None
    else if expected[0] == wanted then Some(0)
    else
      match FirstAt(expected[1..], wanted)
      case None => None
      case Some(i) => Some(i + 1)
  }

  lemma {:induction false} LockstepAt(expected: seq<string>, actual: seq<string>, wanted: string)
    ensures Lockstep(expected, actual, wanted)
      == var at := FirstAt(expected, wanted);
         if at.Some? && at.value < |actual| then Some(actual[at.value]) else None
  {
    if expected != [] && actual != [] && expected[0] != wanted {
      LockstepAt(expected[1..], actual[1..], wanted);
    }
  }

  /** The template segment whose filled-in text the lookup returns. */
  function FoundSegment(t: string, name: string): Option<string> {
    match FirstAt(SplitSlash(t), Placeholder(name))
    case None => None
    case Some(i) => if i < |Segments(t)| then Some(Segments(t)[i]) else None
  }

  // For every template and every parameter values.
  lemma LookupOnBuiltPath(t: string, values: Values, name: string)
    ensures SegmentForParam(t, Path(t, values), name)
      == match FoundSegment(t, name)
         case None => None
         case Some(s) => Some(Subst(s, Encoded(values)))
  {
    var fill := Encoded(values);
    forall n: string ensures '/' !in fill(n) {
      SegmentReadsBack(values(n));
    }
    PiecesSubstitute(t, "", fill);
    assert "" + Subst(t, fill) == Subst(t, fill);
    SplitSubst(t, fill);
    LockstepAt(SplitSlash(t), SplitSlash(Path(t, values)), Placeholder(name));
  }

  /** The parameter's placeholder fills a whole segment, and a plain split of
      the template counts the segments before it as the path does. */
  predicate Aligned(t: string, name: string) {
    FoundSegment(t, name) == Some(Placeholder(name))
  }

  lemma SubstPlaceholder(name: string, fill: Values)
    requires '}' !in name
    ensures Subst(Placeholder(name), fill) == fill(name)
  {
    var p := Placeholder(name);
    var end := |name| + 1;
    assert p[..end] == "{" + name && p[end] == '}' && p[1..end] == name;
    FindIs(p, '}', end);
    assert p[end + 1..] == "";
  }

  // ---------------------------------------- misaligned means wrong, for some values

  function Nothing(): Values { (n: string) => "" }

  function Everything(): Values { (n: string) => "a" }

  function AllBut(name: string): Values { (n: string) => if n == name then "" else "a" }

  lemma EmptyEncodes()
    ensures EncodeSegment("") == "" && EncodeSegment("a") == "a"
    ensures Utf8.Encode("a") == [0x61]
  {
    assert Utf8.Encode("a") == Utf8.EncodeChar('a') + Utf8.Encode("");
    assert [0x61][1..] == [];
    assert EncodeBytes([0x61]) == EncodeByte(0x61) + EncodeBytes([]);
  }

  lemma EncodedIsNotEmpty(s: string)
    requires s != ""
    ensures Utf8.Encode(s) != []
  {
    assert Utf8.EncodeChar(s[0]) != [];
  }

  // Only the empty text decodes to the empty text, and only "a" of the texts
  // that begin with a decodes to "a".
  lemma DecodesToNothing(s: string)
    requires PercentDecode(s) == Some("")
    ensures s == ""
  {
    var bytes := DecodeBytes(Utf8.Encode(s)).value;
    Utf8.EncodeDecode(bytes);
    if s != "" { EncodedIsNotEmpty(s); }
  }

  lemma DecodesToA(rest: string)
    requires PercentDecode("a" + rest) == Some("a")
    ensures rest == ""
  {
    EmptyEncodes();
    var s := "a" + rest;
    assert s[1..] == rest;
    assert Utf8.Encode(s) == [0x61] + Utf8.Encode(rest);
    assert Utf8.Encode(s)[1..] == Utf8.Encode(rest);
    var bytes := DecodeBytes(Utf8.Encode(s)).value;
    Utf8.EncodeDecode(bytes);
    assert bytes == [0x61];
    assert DecodeBytes(Utf8.Encode(rest)) == Some(bytes[1..]);
    if rest != "" { EncodedIsNotEmpty(rest); }
  }

  lemma {:induction false} FilledIsNotEmpty(s: string)
    requires s != ""
    ensures Subst(s, Encoded(Everything())) != ""
  {
    EmptyEncodes();
  }

  /** Some values for which a filled-in segment does not decode to the parameter. */
  lemma OtherSegmentsMislead(s: string, name: string) returns (values: Values)
    requires s != Placeholder(name)
    ensures PercentDecode(Subst(s, Encoded(values))) != Some(values(name))
  {
    EmptyEncodes();
    if s == "" {
      values := Everything();
      assert DecodeBytes(Utf8.Encode("")) == Some([]);
    } else if s[0] == '{' && Find(s, '}').Some? {
      var end := Find(s, '}').value;
      var hole, rest := s[1..end], s[end + 1..];
      if hole != name {
        values := AllBut(name);
        var text := Subst(s, Encoded(values));
        assert text == "a" + Subst(rest, Encoded(values));
        if PercentDecode(text) == Some("") { DecodesToNothing(text); }
      } else {
        values := Everything();
        var more := Subst(rest, Encoded(values));
        assert s == ['{'] + hole + ['}'] + rest;
        assert rest == "" ==> s == Placeholder(name);
        FilledIsNotEmpty(rest);
        if PercentDecode("a" + more) == Some("a") { DecodesToA(more); }
      }
    } else {
      values := Nothing();
      var text := Subst(s, Encoded(values));
      assert text == [s[0]] + Subst(s[1..], Encoded(values));
      if PercentDecode(text) == Some("") { DecodesToNothing(text); }
    }
  }

  // -------------------------------------------------------- main results

  /** What looking a parameter up and decoding it gives. */
  function Recovered(t: string, values: Values, name: string): Option<string> {
    match SegmentForParam(t, Path(t, values), name)
    case None => None
    case Some(raw) => PercentDecode(raw)
  }

  // Whatever characters the value has: slashes, percent signs, or none.
  lemma RecordIdSurvives(t: string, values: Values, name: string)
    requires '}' !in name && Aligned(t, name)
    ensures SegmentForParam(t, Path(t, values), name) == Some(EncodeSegment(values(name)))
    ensures Recovered(t, values, name) == Some(values(name))
  {
    LookupOnBuiltPath(t, values, name);
    SubstPlaceholder(name, Encoded(values));
    SegmentReadsBack(values(name));
  }

  lemma RecordIdLost(t: string, name: string) returns (values: Values)
    requires !Aligned(t, name)
    ensures Recovered(t, values, name) != Some(values(name))
  {
    if FoundSegment(t, name).None? {
      values := Nothing();
    } else {
      values := OtherSegmentsMislead(FoundSegment(t, name).value, name);
    }
    LookupOnBuiltPath(t, values, name);
  }

  ghost predicate AlwaysRecovered(t: string, name: string) {
    forall values: Values :: Recovered(t, values, name) == Some(values(name))
  }

  // The value comes back for all parameter values exactly when the placeholder
  // is aligned.
  lemma RecoveredIffAligned(t: string, name: string)
    requires '}' !in name
    ensures AlwaysRecovered(t, name) <==> Aligned(t, name)
  {
    if Aligned(t, name) {
      forall values: Values ensures Recovered(t, values, name) == Some(values(name)) {
        RecordIdSurvives(t, values, name);
      }
    } else {
      var values := RecordIdLost(t, name);
      assert Recovered(t, values, name) != Some(values(name));
    }
  }

  // ------------------------------------------ placeholders without slashes

  /** No placeholder has a slash between its braces. */
  predicate SlashFree(t: string)
    decreases |t|
  {
    t == ""
    || (if t[0] == '{' && Find(t, '}').Some? then
          '/' !in t[1..Find(t, '}').value] && SlashFree(t[Find(t, '}').value + 1..])
        else SlashFree(t[1..]))
  }

  lemma {:induction false} SlashFreeSegments(t: string)
    requires SlashFree(t)
    ensures Segments(t) == SplitSlash(t)
    decreases |t|
  {
    if t == "" {
    } else if t[0] == '{' && Find(t, '}').Some? {
      var end := Find(t, '}').value;
      var hole, rest := t[..end + 1], t[end + 1..];
      SlashFreeSegments(rest);
      assert hole == ['{'] + t[1..end] + ['}'];
      assert t == hole + rest;
      SplitAfter(hole, rest);
    } else {
      SlashFreeSegments(t[1..]);
    }
  }

  // On such templates filling a whole segment is all it takes.
  lemma WholeSegmentIsAligned(t: string, name: string)
    requires SlashFree(t)
    ensures Aligned(t, name) <==> Placeholder(name) in SplitSlash(t)
  {
    SlashFreeSegments(t);
  }

  // There the lookup finds the placeholder's own segment or nothing at all.
  lemma SlashFreeFindsOrFails(t: string, name: string)
    requires SlashFree(t) && !Aligned(t, name)
    ensures FoundSegment(t, name).None?
  {
    SlashFreeSegments(t);
  }
}

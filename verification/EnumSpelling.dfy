// Which enum variants the emitted Rust enum writes the way they are declared
// (ridl/emit/rust.py).
module EnumSpelling {
  import opened Basics
  import opened Json
  import opened Naming

  /** Every underscore is followed by a letter. */
  predicate Lettered(variant: string) {
    forall i :: 0 <= i < |variant| && variant[i] == '_' ==> i + 1 < |variant| && Lower(variant[i + 1])
  }

  /** No underscore is doubled or last, every later word starts with a letter,
      and no newline slipped in at the end. */
  predicate ComesBack(variant: string) {
    Lettered(variant) && Chomp(variant) == variant
  }

  predicate VariantChars(s: string) {
    forall i :: 0 <= i < |s| ==> Lower(s[i]) || IsDigit(s[i]) || s[i] == '_'
  }

  // Just behind an underscore, or inside a word ending in `p`.
  function Behind(gap: bool, p: char): Option<char> {
    if gap then None else Some(p)
  }

  /** What serde makes of the rest of a variant whose first word has begun. */
  function Rest(s: string, gap: bool, p: char): string {
    SerdeFrom(PascalFrom(s, Behind(gap, p)), false)
  }

  predicate Kept(s: string, gap: bool) {
    Lettered(s) && (gap ==> s != "" && Lower(s[0]))
  }

  lemma RestStep(s: string, gap: bool, p: char)
    requires s != "" && VariantChars(s)
    ensures Rest(s, gap, p)
      == if s[0] == '_' then Rest(s[1..], true, p)
         else (if gap && Lower(s[0]) then "_" else "") + [s[0]] + Rest(s[1..], false, s[0])
  {
    if s[0] != '_' {
      var c := if gap then ToUpper(s[0]) else s[0];
      var tail := PascalFrom(s[1..], Some(s[0]));
      assert PascalFrom(s, Behind(gap, p)) == [c] + tail;
      assert ([c] + tail)[1..] == tail;
    }
  }

  lemma KeptStep(s: string, gap: bool)
    requires s != ""
    ensures Kept(s, gap)
      <==> (if s[0] == '_' then !gap && Kept(s[1..], true) else (gap ==> Lower(s[0])) && Kept(s[1..], false))
  {
    var t := s[1..];
    assert forall i :: 0 <= i < |t| ==> t[i] == s[i + 1];
    if Lettered(s) {
      forall i | 0 <= i < |t| && t[i] == '_' ensures i + 1 < |t| && Lower(t[i + 1]) {
        assert s[i + 1] == '_';
      }
    }
    if Lettered(t) && (s[0] == '_' ==> t != "" && Lower(t[0])) {
      forall i | 0 <= i < |s| && s[i] == '_' ensures i + 1 < |s| && Lower(s[i + 1]) {
        if i > 0 {
          assert t[i - 1] == '_';
        }
      }
    }
  }

  // What is written for one character, and what would keep it.
  lemma LetterKept(c: char, gap: bool, rest: string, tail: string)
    requires c != '_' && |tail| <= |rest|
    ensures (if gap && Lower(c) then "_" else "") + [c] + tail == (if gap then "_" else "") + ([c] + rest)
      <==> (gap ==> Lower(c)) && tail == rest
  {
    var own, mark := if gap && Lower(c) then "_" else "", if gap then "_" else "";
    assert (own + [c] + tail)[|own| + 1..] == tail && (mark + ([c] + rest))[|mark| + 1..] == rest;
    assert |own + [c] + tail| == |own| + 1 + |tail| && |mark + ([c] + rest)| == |mark| + 1 + |rest|;
  }

  // An underscore is lost unless a letter follows it, and nothing else
  // changes, so the length tells.
  lemma {:induction false} RestKept(s: string, gap: bool, p: char)
    requires VariantChars(s)
    ensures |Rest(s, gap, p)| <= |s| + if gap then 1 else 0
    ensures Rest(s, gap, p) == (if gap then "_" else "") + s <==> Kept(s, gap)
  {
    if s != "" {
      RestStep(s, gap, p);
      KeptStep(s, gap);
      assert s == [s[0]] + s[1..];
      if s[0] == '_' {
        RestKept(s[1..], true, p);
      } else {
        RestKept(s[1..], false, s[0]);
        LetterKept(s[0], gap, s[1..], Rest(s[1..], false, s[0]));
      }
    }
  }

  lemma {:induction false} NoNewline(s: string, prev: Option<char>, first: bool)
    ensures '\n' !in SerdeFrom(PascalFrom(s, prev), first)
  {
    if s == "" {
    } else if Separator(s[0]) {
      NoNewline(s[1..], None, first);
    } else {
      var tail := PascalFrom(s[1..], Some(s[0]));
      var p := PascalFrom(s, prev);
      assert p[1..] == tail;
      NoNewline(s[1..], Some(s[0]), false);
    }
  }

  // Which accepted variants the Rust enum writes unchanged.
  lemma SpelledIffComesBack(variant: string)
    requires SnakeCase(Chomp(variant))
    ensures Spelled(variant) == variant <==> ComesBack(variant)
  {
    if Chomp(variant) != variant {
      NoNewline(variant, None, true);
      assert variant[|variant| - 1] == '\n';
    } else {
      FirstLetter(variant);
      RestKept(variant[1..], false, variant[0]);
      KeptStep(variant, false);
    }
  }

  lemma FirstLetter(variant: string)
    requires SnakeCase(variant)
    ensures VariantChars(variant[1..])
    ensures Pascal(variant) == [ToUpper(variant[0])] + PascalFrom(variant[1..], Some(variant[0]))
    ensures Spelled(variant) == [variant[0]] + Rest(variant[1..], false, variant[0])
  {
    var c, tail := ToUpper(variant[0]), PascalFrom(variant[1..], Some(variant[0]));
    assert Pascal(variant) == [c] + tail && ([c] + tail)[1..] == tail;
  }

  // ------------------------------------------------- whole enum types

  lemma {:induction false} PascalOfRest(s: string, gap: bool, p: char)
    requires VariantChars(s) && LowerOrDigit(p)
    ensures PascalFrom(Rest(s, gap, p), Some(p)) == PascalFrom(s, Behind(gap, p))
  {
    if s != "" {
      RestStep(s, gap, p);
      if s[0] == '_' {
        PascalOfRest(s[1..], true, p);
      } else {
        var tail := Rest(s[1..], false, s[0]);
        PascalOfRest(s[1..], false, s[0]);
        assert ([s[0]] + tail)[1..] == tail;
        assert ("_" + ([s[0]] + tail))[1..] == [s[0]] + tail;
        assert "_" + [s[0]] + tail == "_" + ([s[0]] + tail);
      }
    }
  }

  lemma {:induction false} PascalChomped(s: string, prev: Option<char>)
    ensures PascalFrom(s + "\n", prev) == PascalFrom(s, prev)
  {
    var t := s + "\n";
    if s == "" {
      assert t[1..] == "";
    } else {
      assert t[0] == s[0] && t[1..] == s[1..] + "\n";
      PascalChomped(s[1..], if Separator(s[0]) then None else Some(s[0]));
    }
  }

  // The written value has the variant name of the declared one.
  lemma PascalOfSpelled(variant: string)
    requires SnakeCase(Chomp(variant))
    ensures Pascal(Spelled(variant)) == Pascal(variant)
  {
    var v := Chomp(variant);
    if v != variant {
      assert variant == v + "\n";
      PascalChomped(v, None);
    }
    FirstLetter(v);
    PascalOfRest(v[1..], false, v[0]);
    var tail := Rest(v[1..], false, v[0]);
    assert ([v[0]] + tail)[1..] == tail;
  }

  ghost predicate Spells(variants: seq<string>) {
    forall i :: 0 <= i < |variants| ==> Spelled(variants[i]) in variants
  }

  /** An enum that the validator accepts and whose Rust variants have
      different names, as compiling it demands. */
  ghost predicate Compiles(variants: seq<string>) {
    && (forall i :: 0 <= i < |variants| ==> SnakeCase(Chomp(variants[i])))
    && (forall i, j :: 0 <= i < j < |variants| ==> Pascal(variants[i]) != Pascal(variants[j]))
  }

  // Every value such an enum writes is a declared one exactly if each variant
  // comes back as itself.
  lemma SpellsIffAllComeBack(variants: seq<string>)
    requires Compiles(variants)
    ensures Spells(variants) <==> forall i :: 0 <= i < |variants| ==> ComesBack(variants[i])
  {
    forall i | 0 <= i < |variants|
      ensures Spelled(variants[i]) in variants <==> ComesBack(variants[i])
    {
      SpelledIffComesBack(variants[i]);
      PascalOfSpelled(variants[i]);
    }
  }
}

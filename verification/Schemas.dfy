// JSON Schema documents as the emitter writes them, and their meaning: the
// keywords of JSON Schema Validation 2020-12, section 6, and of the applicator
// vocabulary it builds on.
module Schemas {
  import opened Basics
  import opened Json
  import opened Types
  import opened Conformance

  datatype Additional = Unrestricted | Forbidden | Each(schema: Schema)

  // Every keyword is optional; an absent (or empty) keyword constrains nothing.
  datatype Schema = Schema(
    ref: Option<string>,
    type_: Option<JsonType>,
    format: Option<string>,
    enum_: Option<seq<string>>,
    anyOf: seq<Schema>,
    items: Option<Schema>,
    properties: seq<(string, Schema)>,
    required: seq<string>,
    additional: Additional)

  const ANY_VALUE: Schema := Schema(None, None, None, None, [], None, [], [], Unrestricted)

  type Defs = map<string, Schema>

  // Stuck: a reference does not resolve, or evaluation follows references
  // forever without looking at any smaller part of the value.
  datatype Verdict = Valid | Invalid | Stuck

  function Decide(b: bool): Verdict { if b then Valid else Invalid }

  function Both(a: Verdict, b: Verdict): Verdict {
    if a.Stuck? || b.Stuck? then Stuck else Decide(a.Valid? && b.Valid?)
  }

  function Either(a: Verdict, b: Verdict): Verdict {
    if a.Stuck? || b.Stuck? then Stuck else Decide(a.Valid? || b.Valid?)
  }

  predicate TypeHolds(c: Checks, type_: JsonType, v: Json) {
    match type_
    case TNull => v.Null?
    case TBoolean => v.Bool?
    case TString => v.Str?
    case TNumber => v.Num?
    case TInteger => v.Num? && c.integral(v.token)
    case TArray => v.Arr?
    case TObject => v.Obj?
  }

  predicate AssertionsHold(c: Checks, s: Schema, v: Json) {
    && (s.type_.Some? ==> TypeHolds(c, s.type_.value, v))
    && (s.format.Some? ==> c.format(s.format.value, v))
    && (s.enum_.Some? ==> v.Str? && v.s in s.enum_.value)
    && (v.Obj? ==> forall i :: 0 <= i < |s.required| ==> Get(v.members, s.required[i]).Some?)
  }

  /** Evaluate a schema against a value. `seen` are the references followed at
      this very value; meeting one again means evaluation never ends. */
  function Eval(defs: Defs, c: Checks, s: Schema, v: Json, seen: set<string>): Verdict
    decreases v, defs.Keys - seen, s, 1
  {
    var ref :=
      if s.ref.None? then Valid
      else if s.ref.value !in defs || s.ref.value in seen then Stuck
      else Eval(defs, c, defs[s.ref.value], v, seen + {s.ref.value});
    var branches := if s.anyOf == [] then Valid else EvalAny(defs, c, s.anyOf, v, seen);
    var items := if s.items.Some? && v.Arr? then EvalItems(defs, c, s.items.value, v.items) else Valid;
    var members := if v.Obj? then EvalMembers(defs, c, s.properties, s.additional, v.members) else Valid;
    Both(Both(ref, Decide(AssertionsHold(c, s, v))), Both(branches, Both(items, members)))
  }

  function EvalAny(defs: Defs, c: Checks, ss: seq<Schema>, v: Json, seen: set<string>): Verdict
    decreases v, defs.Keys - seen, ss, 0
  {
    if ss == [] then Invalid
    else Either(Eval(defs, c, ss[0], v, seen), EvalAny(defs, c, ss[1..], v, seen))
  }

  function EvalItems(defs: Defs, c: Checks, s: Schema, items: seq<Json>): Verdict
    decreases items
  {
    if items == [] then Valid
    else Both(Eval(defs, c, s, items[0], {}), EvalItems(defs, c, s, items[1..]))
  }

  function EvalMember(defs: Defs, c: Checks, props: seq<(string, Schema)>, additional: Additional, m: (string, Json)): Verdict
    decreases m, 1
  {
    if Get(props, m.0).Some? then Eval(defs, c, Get(props, m.0).value, m.1, {})
    else
      match additional
      case Unrestricted => Valid
      case Forbidden => Invalid
      case Each(s) => Eval(defs, c, s, m.1, {})
  }

  function EvalMembers(defs: Defs, c: Checks, props: seq<(string, Schema)>, additional: Additional, ms: seq<(string, Json)>): Verdict
    decreases ms
  {
    if ms == [] then Valid
    else Both(EvalMember(defs, c, props, additional, ms[0]), EvalMembers(defs, c, props, additional, ms[1..]))
  }

  // ------------------------------------------------------ pointwise views

  lemma {:induction false} ItemsPointwise(defs: Defs, c: Checks, s: Schema, items: seq<Json>)
    ensures EvalItems(defs, c, s, items).Stuck? <==>
      exists i :: 0 <= i < |items| && Eval(defs, c, s, items[i], {}).Stuck?
    ensures EvalItems(defs, c, s, items).Valid? <==>
      forall i :: 0 <= i < |items| ==> Eval(defs, c, s, items[i], {}).Valid?
  {
    if items != [] {
      ItemsPointwise(defs, c, s, items[1..]);
      assert items == [items[0]] + items[1..];
      if i :| 0 <= i < |items| && Eval(defs, c, s, items[i], {}).Stuck? {
        assert i > 0 ==> items[1..][i - 1] == items[i];
      }
      if i :| 0 <= i < |items[1..]| && Eval(defs, c, s, items[1..][i], {}).Stuck? {
        assert items[i + 1] == items[1..][i];
      }
    }
  }

  lemma {:induction false} MembersPointwise(defs: Defs, c: Checks, props: seq<(string, Schema)>, additional: Additional,
      ms: seq<(string, Json)>)
    ensures EvalMembers(defs, c, props, additional, ms).Stuck? <==>
      exists i :: 0 <= i < |ms| && EvalMember(defs, c, props, additional, ms[i]).Stuck?
    ensures EvalMembers(defs, c, props, additional, ms).Valid? <==>
      forall i :: 0 <= i < |ms| ==> EvalMember(defs, c, props, additional, ms[i]).Valid?
  {
    if ms != [] {
      MembersPointwise(defs, c, props, additional, ms[1..]);
      assert ms == [ms[0]] + ms[1..];
      if i :| 0 <= i < |ms| && EvalMember(defs, c, props, additional, ms[i]).Stuck? {
        assert i > 0 ==> ms[1..][i - 1] == ms[i];
      }
      if i :| 0 <= i < |ms[1..]| && EvalMember(defs, c, props, additional, ms[1..][i]).Stuck? {
        assert ms[i + 1] == ms[1..][i];
      }
    }
  }

  // ------------------------------------------------- shapes of documents

  function RefTo(name: string): Schema { ANY_VALUE.(ref := Some(name)) }

  const NULL_SCHEMA: Schema := ANY_VALUE.(type_ := Some(TNull))

  function Nullable(s: Schema): Schema { ANY_VALUE.(anyOf := [s, NULL_SCHEMA]) }

  function ArrayOf(s: Schema): Schema { ANY_VALUE.(type_ := Some(TArray), items := Some(s)) }

  function MapTo(s: Schema): Schema { ANY_VALUE.(type_ := Some(TObject), additional := Each(s)) }

  function ClosedObject(props: seq<(string, Schema)>, required: seq<string>): Schema {
    ANY_VALUE.(type_ := Some(TObject), properties := props, required := required, additional := Forbidden)
  }

  lemma {:induction false} UnrestrictedMembers(defs: Defs, c: Checks, ms: seq<(string, Json)>)
    ensures EvalMembers(defs, c, [], Unrestricted, ms) == Valid
  {
    if ms != [] {
      UnrestrictedMembers(defs, c, ms[1..]);
    }
  }

  // With no reference, branch, item or member keyword, only assertions count.
  lemma PlainMeaning(defs: Defs, c: Checks, s: Schema, v: Json, seen: set<string>)
    requires s.ref.None? && s.anyOf == [] && s.items.None? && s.properties == [] && s.additional.Unrestricted?
    ensures Eval(defs, c, s, v, seen) == Decide(AssertionsHold(c, s, v))
  {
    if v.Obj? {
      UnrestrictedMembers(defs, c, v.members);
    }
  }

  lemma RefMeaning(defs: Defs, c: Checks, name: string, v: Json, seen: set<string>)
    ensures Eval(defs, c, RefTo(name), v, seen)
      == if name !in defs || name in seen then Stuck else Eval(defs, c, defs[name], v, seen + {name})
  {
    if v.Obj? {
      UnrestrictedMembers(defs, c, v.members);
    }
  }

  lemma NullableMeaning(defs: Defs, c: Checks, s: Schema, v: Json, seen: set<string>)
    ensures Eval(defs, c, Nullable(s), v, seen) == Either(Eval(defs, c, s, v, seen), Decide(v.Null?))
  {
    if v.Obj? {
      UnrestrictedMembers(defs, c, v.members);
    }
    var both, last := [s, NULL_SCHEMA], [NULL_SCHEMA];
    assert both[1..] == last && last[1..] == [];
    PlainMeaning(defs, c, NULL_SCHEMA, v, seen);
    assert EvalAny(defs, c, last, v, seen) == Decide(v.Null?);
  }

  lemma ArrayMeaning(defs: Defs, c: Checks, s: Schema, v: Json, seen: set<string>)
    ensures Eval(defs, c, ArrayOf(s), v, seen) == if v.Arr? then EvalItems(defs, c, s, v.items) else Invalid
  {
    if v.Obj? {
      UnrestrictedMembers(defs, c, v.members);
    }
  }

  lemma MapMeaning(defs: Defs, c: Checks, s: Schema, v: Json, seen: set<string>)
    ensures Eval(defs, c, MapTo(s), v, seen)
      == if v.Obj? then EvalMembers(defs, c, [], Each(s), v.members) else Invalid
  {}

  lemma ObjectMeaning(defs: Defs, c: Checks, props: seq<(string, Schema)>, required: seq<string>, v: Json, seen: set<string>)
    ensures Eval(defs, c, ClosedObject(props, required), v, seen)
      == if v.Obj? then
           Both(Decide(forall i :: 0 <= i < |required| ==> Get(v.members, required[i]).Some?),
                EvalMembers(defs, c, props, Forbidden, v.members))
         else Invalid
  {}
}

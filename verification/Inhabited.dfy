// Why the cycle check is the right one: it passes exactly when every declared
// type has a finite value.
module Inhabited {
  import opened Json
  import opened Types
  import opened Graph
  import opened Acyclic
  import opened Conformance

  ghost predicate HasValue(c: Checks, b: Builtin) {
    exists v :: WellFormed(v) && BuiltinAdmits(c, b, v)
  }

  ghost predicate BuiltinsInhabited(c: Checks) {
    forall b: Builtin :: HasValue(c, b)
  }

  lemma {:induction false} FieldRefsOf(fields: seq<Field>, m: string)
    ensures m in FieldRefs(fields) <==>
      exists i :: 0 <= i < |fields| && fields[i].required && fields[i].ftype == Named(m)
  {
    if fields != [] {
      FieldRefsOf(fields[1..], m);
      if i :| 0 <= i < |fields| && fields[i].required && fields[i].ftype == Named(m) {
        if i > 0 {
          assert fields[1..][i - 1] == fields[i];
        }
      }
      if m in FieldRefs(fields[1..]) {
        var i :| 0 <= i < |fields[1..]| && fields[1..][i].required && fields[1..][i].ftype == Named(m);
        assert fields[i + 1] == fields[1..][i];
      }
    }
  }

  // A value of a type witnesses that the type's required references end.
  lemma {:induction false} ValueGrounds(t: TypeTable, c: Checks, n: string, v: Json, k: nat)
    requires Resolved(t) && n in t.defs && Fits(t, c, Named(n), v, k)
    ensures Grounded(DefinitionGraph(t), n, k)
    decreases k
  {
    var g := DefinitionGraph(t);
    forall m | m in g[n] && m in g ensures Grounded(g, m, k - 1) {
      match t.defs[n]
      case AliasDef(target) =>
        ValueGrounds(t, c, m, v, k - 1);
      case RecordDef(fields) =>
        FieldRefsOf(fields, m);
        var i :| 0 <= i < |fields| && fields[i].required && fields[i].ftype == Named(m);
        assert !fields[i].hasDefault;
        var j :| 0 <= j < |v.members| && v.members[j].0 == fields[i].wire;
        assert FitsField(t, c, fields, v.members[j], k - 1);
        var x :| 0 <= x < |fields| && fields[x].wire == v.members[j].0
          && Fits(t, c, fields[x].ftype, v.members[j].1, k - 1);
        assert x == i;
        ValueGrounds(t, c, m, v.members[j].1, k - 1);
    }
  }

  // A grounded type has a finite value; references that are not required at
  // once are satisfied by leaving the field out, or by null, [] or {}.
  lemma {:induction false} BuildValue(t: TypeTable, c: Checks, n: string, k: nat) returns (v: Json, fuel: nat)
    requires Resolved(t) && BuiltinsInhabited(c)
    requires n in t.defs && Grounded(DefinitionGraph(t), n, k)
    ensures Fits(t, c, Named(n), v, fuel) && WellFormed(v)
    decreases k, 2
  {
    match t.defs[n]
    case AliasDef(target) =>
      v, fuel := BuildExpr(t, c, target, n, k);
      fuel := fuel + 1;
    case EnumDef(variants) =>
      v, fuel := Str(variants[0]), 1;
    case ScalarDef(base) =>
      assert HasValue(c, base);
      v :| WellFormed(v) && BuiltinAdmits(c, base, v);
      fuel := 1;
    case RecordDef(fields) =>
      var ms, f := BuildMembers(t, c, n, fields, k, |fields|);
      SmallRecordFits(t, c, fields, ms, f);
      v, fuel := Obj(ms), f + 1;
  }

  lemma {:induction false} BuildExpr(t: TypeTable, c: Checks, e: TypeExpr, n: string, k: nat) returns (v: Json, fuel: nat)
    requires Resolved(t) && BuiltinsInhabited(c) && RefsResolve(t, e)
    requires n in t.defs && Grounded(DefinitionGraph(t), n, k)
    requires e.Named? && e.name in t.defs ==> e.name in DefinitionGraph(t)[n]
    ensures Fits(t, c, e, v, fuel) && WellFormed(v)
    decreases k, 0
  {
    match e
    case OptionOf(_) => v, fuel := Null, 0;
    case ListOf(_) => v, fuel := Arr([]), 0;
    case MapOf(_) => v, fuel := Obj([]), 0;
    case Named(m) =>
      assert NamedIn(e)[0] == m;
      v, fuel := BuildValue(t, c, m, k - 1);
    case Base(b) =>
      assert HasValue(c, b);
      v :| WellFormed(v) && BuiltinAdmits(c, b, v);
      fuel := 0;
  }

  ghost predicate Declares(fields: seq<Field>, upto: nat, name: string)
    requires upto <= |fields|
  {
    exists i :: 0 <= i < upto && fields[i].wire == name
  }

  // The members of a smallest record value, for its first `upto` fields.
  ghost predicate SmallRecord(t: TypeTable, c: Checks, fields: seq<Field>, upto: nat, ms: seq<(string, Json)>, fuel: nat)
    requires upto <= |fields|
  {
    && DistinctKeys(ms)
    && (forall j :: 0 <= j < |ms| ==> FitsField(t, c, fields, ms[j], fuel) && WellFormed(ms[j].1))
    && (forall j :: 0 <= j < |ms| ==> Declares(fields, upto, ms[j].0))
    && (forall i :: 0 <= i < upto && fields[i].required ==> HasMember(Obj(ms), fields[i].wire))
  }

  lemma FieldsMonotone(t: TypeTable, c: Checks, fields: seq<Field>, ms: seq<(string, Json)>, k: nat, more: nat)
    requires k <= more && forall j :: 0 <= j < |ms| ==> FitsField(t, c, fields, ms[j], k)
    ensures forall j :: 0 <= j < |ms| ==> FitsField(t, c, fields, ms[j], more)
  {
    forall j | 0 <= j < |ms| ensures FitsField(t, c, fields, ms[j], more) {
      assert FitsField(t, c, fields, ms[j], k);
      var i :| 0 <= i < |fields| && fields[i].wire == ms[j].0 && Fits(t, c, fields[i].ftype, ms[j].1, k);
      FitsMonotone(t, c, fields[i].ftype, ms[j].1, k, more);
    }
  }

  lemma SkipField(t: TypeTable, c: Checks, fields: seq<Field>, upto: nat, ms: seq<(string, Json)>, fuel: nat)
    requires upto < |fields| && SmallRecord(t, c, fields, upto, ms, fuel) && !fields[upto].required
    ensures SmallRecord(t, c, fields, upto + 1, ms, fuel)
  {
    forall j | 0 <= j < |ms| ensures Declares(fields, upto + 1, ms[j].0) {
      assert Declares(fields, upto, ms[j].0);
    }
  }

  lemma AddField(t: TypeTable, c: Checks, fields: seq<Field>, upto: nat, ms: seq<(string, Json)>, fuel: nat, v: Json)
    requires upto < |fields| && SmallRecord(t, c, fields, upto, ms, fuel)
    requires Fits(t, c, fields[upto].ftype, v, fuel) && WellFormed(v)
    requires forall i :: 0 <= i < upto ==> fields[i].wire != fields[upto].wire
    ensures SmallRecord(t, c, fields, upto + 1, ms + [(fields[upto].wire, v)], fuel)
  {
    var all := ms + [(fields[upto].wire, v)];
    forall j | 0 <= j < |ms| ensures all[j].0 != fields[upto].wire && Declares(fields, upto + 1, all[j].0) {
      assert Declares(fields, upto, ms[j].0);
    }
    assert all[|ms|].0 == fields[upto].wire;
    assert Declares(fields, upto + 1, all[|ms|].0);
    assert FitsField(t, c, fields, all[|ms|], fuel);
    forall i | 0 <= i < upto + 1 && fields[i].required ensures HasMember(Obj(all), fields[i].wire) {
      if i < upto {
        assert HasMember(Obj(ms), fields[i].wire);
        var j :| 0 <= j < |ms| && ms[j].0 == fields[i].wire;
        assert all[j].0 == fields[i].wire;
      }
    }
  }

  lemma SmallRecordFits(t: TypeTable, c: Checks, fields: seq<Field>, ms: seq<(string, Json)>, fuel: nat)
    requires SmallRecord(t, c, fields, |fields|, ms, fuel)
    ensures FitsDef(t, c, RecordDef(fields), Obj(ms), fuel) && WellFormed(Obj(ms))
  {}

  lemma {:induction false} BuildMembers(t: TypeTable, c: Checks, n: string, fields: seq<Field>, k: nat, upto: nat)
    returns (ms: seq<(string, Json)>, fuel: nat)
    requires Resolved(t) && BuiltinsInhabited(c)
    requires n in t.defs && t.defs[n] == RecordDef(fields) && upto <= |fields|
    requires Grounded(DefinitionGraph(t), n, k)
    ensures SmallRecord(t, c, fields, upto, ms, fuel)
    decreases k, 1, upto
  {
    if upto == 0 {
      return [], 0;
    }
    var f := fields[upto - 1];
    var front, a := BuildMembers(t, c, n, fields, k, upto - 1);
    if !f.required {
      SkipField(t, c, fields, upto - 1, front, a);
      return front, a;
    }
    if f.ftype.Named? {
      FieldRefsOf(fields, f.ftype.name);
    }
    var v, b := BuildExpr(t, c, f.ftype, n, k);
    fuel := a + b;
    FieldsMonotone(t, c, fields, front, a, fuel);
    FitsMonotone(t, c, f.ftype, v, b, fuel);
    AddField(t, c, fields, upto - 1, front, fuel, v);
    ms := front + [(f.wire, v)];
  }

  // The check passes exactly when every declared type has a finite value.
  lemma AcyclicIffInhabited(t: TypeTable, c: Checks)
    requires Resolved(t) && BuiltinsInhabited(c)
    ensures WellFounded(DefinitionGraph(t)) <==>
      forall n :: n in t.defs ==> exists v :: Conforms(t, c, Named(n), v)
  {
    var g := DefinitionGraph(t);
    if WellFounded(g) {
      forall n | n in t.defs ensures exists v :: Conforms(t, c, Named(n), v) {
        assert n in g;
        var k: nat :| Grounded(g, n, k);
        var v, fuel := BuildValue(t, c, n, k);
        assert Conforms(t, c, Named(n), v);
      }
    }
    if forall n :: n in t.defs ==> exists v :: Conforms(t, c, Named(n), v) {
      forall n | n in g ensures exists k: nat :: Grounded(g, n, k) {
        var v :| Conforms(t, c, Named(n), v);
        var k: nat :| Fits(t, c, Named(n), v, k);
        ValueGrounds(t, c, n, v, k);
      }
    }
  }
}

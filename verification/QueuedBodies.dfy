// What a request type guarantees about one member of a conforming body.
module QueuedBodies {
  import opened Json
  import opened Types
  import opened Conformance

  predicate StringBuiltin(b: Builtin) {
    b == Builtin.String || b == Uuid || b == DateTime || b == Builtin.Decimal
  }

  /** Every value of the type is a JSON string. */
  predicate StringValued(t: TypeTable, e: TypeExpr, seen: set<string>)
    decreases t.defs.Keys - seen
  {
    match e
    case Base(b) => StringBuiltin(b)
    case Named(n) =>
      n in t.defs && n !in seen
      && (match t.defs[n]
          case EnumDef(_) => true
          case ScalarDef(b) => StringBuiltin(b)
          case AliasDef(target) => StringValued(t, target, seen + {n})
          case RecordDef(_) => false)
    case _ => false
  }

  /** An option, or `Json` where it stands for any value, possibly behind names. */
  predicate TakesNull(t: TypeTable, c: Reader, e: TypeExpr, seen: set<string>)
    decreases t.defs.Keys - seen
  {
    match e
    case OptionOf(_) => true
    case Base(b) => BuiltinAdmits(c, b, Null)
    case Named(n) =>
      n in t.defs && n !in seen
      && (match t.defs[n]
          case ScalarDef(b) => BuiltinAdmits(c, b, Null)
          case AliasDef(target) => TakesNull(t, c, target, seen + {n})
          case _ => false)
    case _ => false
  }

  lemma {:induction false} StringValuedIsString(t: TypeTable, c: Reader, e: TypeExpr, seen: set<string>, v: Json, k: nat)
    requires StringValued(t, e, seen) && Fits(t, c, e, v, k)
    ensures v.Str?
    decreases k
  {
    if e.Named? && t.defs[e.name].AliasDef? {
      StringValuedIsString(t, c, t.defs[e.name].target, seen + {e.name}, v, k - 1);
    }
  }

  lemma {:induction false} NullFits(t: TypeTable, c: Reader, e: TypeExpr, seen: set<string>) returns (k: nat)
    requires TakesNull(t, c, e, seen)
    ensures Fits(t, c, e, Null, k)
    decreases t.defs.Keys - seen
  {
    if !e.Named? {
      k := 0;
    } else if t.defs[e.name].ScalarDef? {
      k := 1;
    } else {
      k := NullFits(t, c, t.defs[e.name].target, seen + {e.name});
      k := k + 1;
    }
  }

  // A type that is neither string-valued nor takes null has no string values.
  // `k` is the least fuel that shows `v` to fit, so no alias can come round.
  lemma {:induction false} OtherTypesHoldNoString(t: TypeTable, c: Reader, e: TypeExpr, seen: set<string>, v: Json, k: nat)
    requires Fits(t, c, e, v, k) && !StringValued(t, e, seen) && !TakesNull(t, c, e, seen)
    requires forall n :: n in seen ==> !Fits(t, c, Named(n), v, k)
    requires forall j :: 0 <= j < k ==> !Fits(t, c, e, v, j)
    ensures !v.Str?
    decreases k
  {
    if e.Named? && t.defs[e.name].AliasDef? {
      var target, rest := t.defs[e.name].target, seen + {e.name};
      assert e == Named(e.name);
      forall n | n in rest ensures !Fits(t, c, Named(n), v, k - 1) {
        if n in seen && Fits(t, c, Named(n), v, k - 1) {
          FitsMonotone(t, c, Named(n), v, k - 1, k);
        }
      }
      forall j | 0 <= j < k - 1 ensures !Fits(t, c, target, v, j) {
        assert Fits(t, c, e, v, j + 1) <==> Fits(t, c, target, v, j);
      }
      OtherTypesHoldNoString(t, c, target, rest, v, k - 1);
    }
  }

  lemma {:induction false} LeastFuel(t: TypeTable, c: Reader, e: TypeExpr, v: Json, k: nat) returns (least: nat)
    requires Fits(t, c, e, v, k)
    ensures least <= k && Fits(t, c, e, v, least)
    ensures forall j :: 0 <= j < least ==> !Fits(t, c, e, v, j)
  {
    if j :| 0 <= j < k && Fits(t, c, e, v, j) {
      least := LeastFuel(t, c, e, v, j);
    } else {
      least := k;
    }
  }

  // ------------------------------------------------- aliases of a record

  lemma {:induction false} FitsUnderlying(t: TypeTable, c: Reader, e: TypeExpr, seen: set<string>, v: Json, k: nat) returns (j: nat)
    requires Fits(t, c, e, v, k)
    ensures j <= k && Fits(t, c, Underlying(t, e, seen), v, j)
    decreases k
  {
    if Underlying(t, e, seen) == e {
      j := k;
    } else {
      j := FitsUnderlying(t, c, t.defs[e.name].target, seen + {e.name}, v, k - 1);
    }
  }

  lemma {:induction false} UnderlyingFits(t: TypeTable, c: Reader, e: TypeExpr, seen: set<string>, v: Json, k: nat) returns (j: nat)
    requires Fits(t, c, Underlying(t, e, seen), v, k)
    ensures Fits(t, c, e, v, j)
    decreases t.defs.Keys - seen
  {
    if e.Named? && e.name !in seen && e.name in t.defs && t.defs[e.name].AliasDef? {
      j := UnderlyingFits(t, c, t.defs[e.name].target, seen + {e.name}, v, k);
      j := j + 1;
    } else {
      j := k;
    }
  }

  /** `v` is a value of the record with these fields. */
  ghost predicate FitsRecord(t: TypeTable, c: Reader, fields: seq<Field>, v: Json, k: nat) {
    FitsDef(t, c, RecordDef(fields), v, k)
  }

  lemma RecordBody(t: TypeTable, c: Reader, e: TypeExpr, v: Json) returns (k: nat)
    requires IsRecord(t, e) && Conforms(t, c, e, v)
    ensures FitsRecord(t, c, t.defs[Underlying(t, e, {}).name].fields, v, k)
  {
    var fuel: nat :| Fits(t, c, e, v, fuel);
    var j := FitsUnderlying(t, c, e, {}, v, fuel);
    var d := t.defs[Underlying(t, e, {}).name];
    assert d == RecordDef(d.fields);
    k := j - 1;
  }

  lemma BodyOfRecord(t: TypeTable, c: Reader, e: TypeExpr, v: Json, k: nat)
    requires IsRecord(t, e) && FitsRecord(t, c, t.defs[Underlying(t, e, {}).name].fields, v, k)
    ensures Conforms(t, c, e, v)
  {
    var d := t.defs[Underlying(t, e, {}).name];
    assert d == RecordDef(d.fields);
    assert Fits(t, c, Underlying(t, e, {}), v, k + 1);
    var j := UnderlyingFits(t, c, e, {}, v, k + 1);
  }

  ghost predicate DistinctWires(fields: seq<Field>) {
    forall i, j :: 0 <= i < j < |fields| ==> fields[i].wire != fields[j].wire
  }

  /** The one field that can promise a string member: it must be sent, and all
      its values are strings. */
  predicate PromisesString(t: TypeTable, f: Field) {
    f.required && !f.hasDefault && StringValued(t, f.ftype, {})
  }

  lemma MemberFitsItsField(t: TypeTable, c: Reader, fields: seq<Field>, v: Json, k: nat, i: nat, j: nat)
    requires DistinctWires(fields) && FitsRecord(t, c, fields, v, k)
    requires i < |fields| && j < |v.members| && v.members[j].0 == fields[i].wire
    ensures Fits(t, c, fields[i].ftype, v.members[j].1, k)
  {
    assert FitsField(t, c, fields, v.members[j], k);
    var x :| 0 <= x < |fields| && fields[x].wire == v.members[j].0 && Fits(t, c, fields[x].ftype, v.members[j].1, k);
  }

  // A promising field is a string member of every body.
  lemma PromiseKept(t: TypeTable, c: Reader, fields: seq<Field>, v: Json, k: nat, i: nat)
    requires DistinctWires(fields) && FitsRecord(t, c, fields, v, k) && WellFormed(v)
    requires i < |fields| && PromisesString(t, fields[i])
    ensures Get(v.members, fields[i].wire).Some? && Get(v.members, fields[i].wire).value.Str?
  {
    var j :| 0 <= j < |v.members| && v.members[j].0 == fields[i].wire;
    MemberFitsItsField(t, c, fields, v, k, i, j);
    StringValuedIsString(t, c, fields[i].ftype, {}, v.members[j].1, k);
    GetAt(v.members, j);
  }

  // --------------------------------------- bodies that break the promise

  function Without(ms: seq<(string, Json)>, name: string): seq<(string, Json)> {
    if ms == [] then []
    else if ms[0].0 == name then Without(ms[1..], name)
    else [ms[0]] + Without(ms[1..], name)
  }

  lemma {:induction false} WithoutMembers(ms: seq<(string, Json)>, name: string)
    ensures forall m :: m in Without(ms, name) <==> m in ms && m.0 != name
    ensures DistinctKeys(ms) ==> DistinctKeys(Without(ms, name))
  {
    if ms != [] {
      var rest := Without(ms[1..], name);
      WithoutMembers(ms[1..], name);
      if DistinctKeys(ms) {
        assert DistinctKeys(ms[1..]);
        forall m | m in rest ensures m.0 != ms[0].0 {
          var i :| 0 <= i < |ms[1..]| && ms[1..][i] == m;
          assert ms[i + 1] == m;
        }
        assert forall i :: 0 <= i < |rest| ==> rest[i] in rest;
      }
    }
  }

  lemma {:induction false} WithoutDepth(ms: seq<(string, Json)>, name: string)
    ensures MembersDepth(Without(ms, name)) <= MembersDepth(ms)
  {
    if ms != [] {
      var r := Without(ms, name);
      WithoutDepth(ms[1..], name);
      assert ms[0].0 != name ==> r[0] == ms[0] && r[1..] == Without(ms[1..], name);
    }
  }

  function Nulled(ms: seq<(string, Json)>, name: string): (r: seq<(string, Json)>)
    ensures |r| == |ms|
    ensures forall i :: 0 <= i < |r| ==> r[i] == if ms[i].0 == name then (name, Null) else ms[i]
  {
    if ms == [] then []
    else [if ms[0].0 == name then (name, Null) else ms[0]] + Nulled(ms[1..], name)
  }

  lemma {:induction false} NulledDepth(ms: seq<(string, Json)>, name: string)
    ensures MembersDepth(Nulled(ms, name)) <= MembersDepth(ms)
  {
    if ms != [] {
      NulledDepth(ms[1..], name);
      var r := Nulled(ms, name);
      assert r[1..] == Nulled(ms[1..], name);
      assert Depth(Null) == 0;
      assert MemberDepth(r[0]) <= MemberDepth(ms[0]);
    }
  }

  lemma NulledBody(ms: seq<(string, Json)>, name: string)
    requires WellFormed(Obj(ms))
    ensures var w := Obj(Nulled(ms, name)); WellFormed(w) && Depth(w) <= Depth(Obj(ms))
    ensures var found := Get(Nulled(ms, name), name); found.Some? ==> found.value == Null
  {
    NulledDepth(ms, name);
    var r := Nulled(ms, name);
    assert forall j :: 0 <= j < |r| ==> r[j].0 == ms[j].0;
    GetSpec(r, name);
  }

  lemma LeaveOut(t: TypeTable, c: Reader, fields: seq<Field>, v: Json, k: nat, i: nat)
    requires DistinctWires(fields) && FitsRecord(t, c, fields, v, k) && WellFormed(v)
    requires i < |fields| && !(fields[i].required && !fields[i].hasDefault)
    ensures var w := Obj(Without(v.members, fields[i].wire));
      && FitsRecord(t, c, fields, w, k) && WellFormed(w) && Depth(w) <= Depth(v)
      && Get(w.members, fields[i].wire).None?
  {
    var name := fields[i].wire;
    var ms := Without(v.members, name);
    WithoutMembers(v.members, name);
    WithoutDepth(v.members, name);
    forall x | 0 <= x < |fields| && fields[x].required && !fields[x].hasDefault
      ensures HasMember(Obj(ms), fields[x].wire)
    {
      var j :| 0 <= j < |v.members| && v.members[j].0 == fields[x].wire;
      assert v.members[j] in ms;
    }
    forall j | 0 <= j < |ms| ensures FitsField(t, c, fields, ms[j], k) && WellFormed(ms[j].1) {
      assert ms[j] in ms;
      var x :| 0 <= x < |v.members| && v.members[x] == ms[j];
    }
    forall j | 0 <= j < |ms| ensures ms[j].0 != name {
      assert ms[j] in ms;
    }
    GetSpec(ms, name);
  }

  lemma NulledFits(t: TypeTable, c: Reader, fields: seq<Field>, v: Json, k: nat, i: nat)
    requires FitsRecord(t, c, fields, v, k) && i < |fields| && Fits(t, c, fields[i].ftype, Null, k)
    ensures FitsRecord(t, c, fields, Obj(Nulled(v.members, fields[i].wire)), k)
  {
    var name := fields[i].wire;
    var ms := Nulled(v.members, name);
    forall x | 0 <= x < |fields| && fields[x].required && !fields[x].hasDefault
      ensures HasMember(Obj(ms), fields[x].wire)
    {
      var j :| 0 <= j < |v.members| && v.members[j].0 == fields[x].wire;
      assert ms[j].0 == fields[x].wire;
    }
    forall j | 0 <= j < |ms| ensures FitsField(t, c, fields, ms[j], k) {
      assert FitsField(t, c, fields, v.members[j], k);
    }
  }

  lemma PutNull(t: TypeTable, c: Reader, fields: seq<Field>, v: Json, k: nat, i: nat) returns (more: nat)
    requires FitsRecord(t, c, fields, v, k) && WellFormed(v)
    requires i < |fields| && TakesNull(t, c, fields[i].ftype, {})
    ensures var w := Obj(Nulled(v.members, fields[i].wire));
      && FitsRecord(t, c, fields, w, more) && WellFormed(w) && Depth(w) <= Depth(v)
      && (Get(w.members, fields[i].wire).Some? ==> Get(w.members, fields[i].wire).value == Null)
  {
    var n := NullFits(t, c, fields[i].ftype, {});
    more := Max(k, n);
    FitsMonotone(t, c, fields[i].ftype, Null, n, more);
    FitsDefMonotone(t, c, RecordDef(fields), v, k, more);
    NulledFits(t, c, fields, v, more, i);
    NulledBody(v.members, fields[i].wire);
  }

  // Where no field promises a string, some body of the type breaks it, no
  // deeper than any given body.
  lemma PromiseBroken(t: TypeTable, c: Reader, fields: seq<Field>, v: Json, k: nat, i: nat) returns (w: Json, more: nat)
    requires DistinctWires(fields) && FitsRecord(t, c, fields, v, k) && WellFormed(v)
    requires i < |fields| && !PromisesString(t, fields[i])
    ensures FitsRecord(t, c, fields, w, more) && WellFormed(w) && Depth(w) <= Depth(v)
    ensures Get(w.members, fields[i].wire).Some? ==> !Get(w.members, fields[i].wire).value.Str?
  {
    if !(fields[i].required && !fields[i].hasDefault) {
      LeaveOut(t, c, fields, v, k, i);
      w, more := Obj(Without(v.members, fields[i].wire)), k;
    } else if TakesNull(t, c, fields[i].ftype, {}) {
      more := PutNull(t, c, fields, v, k, i);
      w := Obj(Nulled(v.members, fields[i].wire));
    } else {
      w, more := v, k;
      var j :| 0 <= j < |v.members| && v.members[j].0 == fields[i].wire;
      GetAt(v.members, j);
      MemberFitsItsField(t, c, fields, v, k, i, j);
      var least := LeastFuel(t, c, fields[i].ftype, v.members[j].1, k);
      OtherTypesHoldNoString(t, c, fields[i].ftype, {}, v.members[j].1, least);
    }
  }
}

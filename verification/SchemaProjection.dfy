// Projection of route-map types to JSON Schema (ridl/emit/json_schema.py), and
// that it means the same thing.
module SchemaProjection {
  import opened Basics
  import opened Json
  import opened Types
  import opened Graph
  import opened Conformance
  import opened Schemas

  function BuiltinSchema(b: Builtin): Schema {
    ANY_VALUE.(type_ := Some(JsonTypeOf(b)), format := FormatOf(b))
  }

  /** `_type_schema`. */
  function TypeSchema(e: TypeExpr): Schema {
    match e
    case OptionOf(inner) => Nullable(TypeSchema(inner))
    case ListOf(item) => ArrayOf(TypeSchema(item))
    case MapOf(value) => MapTo(TypeSchema(value))
    case Base(b) => BuiltinSchema(b)
    case Named(n) => RefTo(n)
  }

  function FieldProperties(fields: seq<Field>): seq<(string, Schema)> {
    if fields == [] then []
    else [(fields[0].wire, TypeSchema(fields[0].ftype))] + FieldProperties(fields[1..])
  }

  function RequiredFields(fields: seq<Field>): seq<string> {
    if fields == [] then []
    else (if fields[0].required && !fields[0].hasDefault then [fields[0].wire] else [])
         + RequiredFields(fields[1..])
  }

  /** `_defn_schema`. */
  function DefnSchema(d: TypeDef): Schema {
    match d
    case RecordDef(fields) => ClosedObject(FieldProperties(fields), RequiredFields(fields))
    case EnumDef(variants) => ANY_VALUE.(type_ := Some(TString), enum_ := Some(variants))
    case ScalarDef(base) => BuiltinSchema(base)
    case AliasDef(target) => TypeSchema(target)
  }

  /** The `$defs` of `index.json` and of every operation document. */
  function DefsOf(t: TypeTable): Defs {
    map n | n in t.defs :: DefnSchema(t.defs[n])
  }

  /** The record branch of `_defn_schema`, which fills two collections. */
  method RecordSchema(fields: seq<Field>) returns (s: Schema)
    ensures s == DefnSchema(RecordDef(fields))
  {
    var properties: seq<(string, Schema)> := [];
    var required: seq<string> := [];
    var i := 0;
    while i < |fields|
      invariant 0 <= i <= |fields|
      invariant properties + FieldProperties(fields[i..]) == FieldProperties(fields)
      invariant required + RequiredFields(fields[i..]) == RequiredFields(fields)
    {
      var f := fields[i];
      assert fields[i..][0] == f && fields[i..][1..] == fields[i + 1..];
      properties := properties + [(f.wire, TypeSchema(f.ftype))];
      if f.required && !f.hasDefault {
        required := required + [f.wire];
      }
      i := i + 1;
    }
    assert fields[i..] == [];
    s := ClosedObject(properties, required);
  }

  // --------------------------------------------------------- alias graph

  /** The named type an expression stands for without looking inside a value:
      options are transparent, lists and maps are not. */
  function Head(e: TypeExpr): seq<string> {
    match e
    case Named(n) => [n]
    case OptionOf(inner) => Head(inner)
    case _ => []
  }

  function AliasGraph(t: TypeTable): Graph {
    map n | n in t.defs :: if t.defs[n].AliasDef? then Head(t.defs[n].target) else []
  }

  /** No alias reaches itself through aliases and options alone. */
  ghost predicate Guarded(t: TypeTable) {
    WellFounded(AliasGraph(t))
  }

  /** The least depth at which a node is grounded. */
  ghost function Rank(g: Graph, n: string, k: nat): (r: nat)
    requires Grounded(g, n, k)
    ensures 0 < r <= k && Grounded(g, n, r)
    decreases k
  {
    if Grounded(g, n, k - 1) then Rank(g, n, k - 1) else k
  }

  lemma {:induction false} RankIsLeast(g: Graph, n: string, k: nat, j: nat)
    requires Grounded(g, n, k) && Grounded(g, n, j)
    ensures Rank(g, n, k) <= j
    decreases k
  {
    if Grounded(g, n, k - 1) {
      RankIsLeast(g, n, k - 1, j);
    } else if j < k {
      GroundedMonotone(g, n, j, k - 1);
    }
  }

  // A ranking of the declared names under which every alias drops to what it
  // stands for.
  type Ranks = map<string, nat>

  ghost function ExprRank(ranks: Ranks, e: TypeExpr): nat {
    if Head(e) != [] && Head(e)[0] in ranks then ranks[Head(e)[0]] else 0
  }

  ghost predicate Ranked(t: TypeTable, ranks: Ranks) {
    && ranks.Keys == t.defs.Keys
    && (forall n :: n in ranks ==> 0 < ranks[n] <= |t.defs|)
    && (forall n :: n in t.defs && t.defs[n].AliasDef? ==> ExprRank(ranks, t.defs[n].target) < ranks[n])
  }

  lemma GuardedRanks(t: TypeTable) returns (ranks: Ranks)
    requires Guarded(t)
    ensures Ranked(t, ranks)
  {
    var g := AliasGraph(t);
    WellFoundedIffAcyclic(g);
    assert g.Keys == t.defs.Keys;
    assert |g| == |g.Keys| == |t.defs.Keys| == |t.defs|;
    ranks := map n | n in g :: Rank(g, n, |g|);
    forall n | n in t.defs && t.defs[n].AliasDef? ensures ExprRank(ranks, t.defs[n].target) < ranks[n] {
      var e := t.defs[n].target;
      if Head(e) != [] && Head(e)[0] in ranks {
        var m := Head(e)[0];
        assert m in g[n];
        RankIsLeast(g, m, |g|, ranks[n] - 1);
      }
    }
  }

  // ------------------------------------------------------------- meaning

  lemma {:induction false} PropertyOf(fields: seq<Field>, i: nat)
    requires i < |fields|
    requires forall x, y :: 0 <= x < y < |fields| ==> fields[x].wire != fields[y].wire
    ensures Get(FieldProperties(fields), fields[i].wire) == Some(TypeSchema(fields[i].ftype))
  {
    if i > 0 {
      assert fields[1..][i - 1] == fields[i];
      PropertyOf(fields[1..], i - 1);
    }
  }

  lemma {:induction false} NoProperty(fields: seq<Field>, name: string)
    requires forall i :: 0 <= i < |fields| ==> fields[i].wire != name
    ensures Get(FieldProperties(fields), name) == None
  {
    if fields != [] {
      NoProperty(fields[1..], name);
    }
  }

  ghost predicate AllPresent(required: seq<string>, v: Json)
    requires v.Obj?
  {
    forall x :: 0 <= x < |required| ==> Get(v.members, required[x]).Some?
  }

  ghost predicate MandatoryPresent(fields: seq<Field>, v: Json)
    requires v.Obj?
  {
    forall i :: 0 <= i < |fields| && fields[i].required && !fields[i].hasDefault ==> HasMember(v, fields[i].wire)
  }

  lemma {:induction false} RequiredOf(fields: seq<Field>, v: Json)
    requires v.Obj?
    ensures AllPresent(RequiredFields(fields), v) <==> MandatoryPresent(fields, v)
  {
    if fields != [] {
      var f, rest := fields[0], fields[1..];
      var head := if f.required && !f.hasDefault then [f.wire] else [];
      RequiredOf(rest, v);
      GetSpec(v.members, f.wire);
      assert Get(v.members, f.wire).Some? <==> HasMember(v, f.wire);
      AllPresentSplit(head, RequiredFields(rest), v);
      assert fields == [f] + rest;
      MandatorySplit(f, rest, v);
      assert AllPresent(head, v) <==> (f.required && !f.hasDefault ==> HasMember(v, f.wire));
    }
  }

  lemma AllPresentSplit(a: seq<string>, b: seq<string>, v: Json)
    requires v.Obj?
    ensures AllPresent(a + b, v) <==> AllPresent(a, v) && AllPresent(b, v)
  {
    if AllPresent(a + b, v) {
      forall x | 0 <= x < |a| ensures Get(v.members, a[x]).Some? {
        assert (a + b)[x] == a[x];
      }
      forall x | 0 <= x < |b| ensures Get(v.members, b[x]).Some? {
        assert (a + b)[|a| + x] == b[x];
      }
    }
  }

  lemma MandatorySplit(f: Field, rest: seq<Field>, v: Json)
    requires v.Obj?
    ensures MandatoryPresent([f] + rest, v)
      <==> (f.required && !f.hasDefault ==> HasMember(v, f.wire)) && MandatoryPresent(rest, v)
  {
    var all := [f] + rest;
    if MandatoryPresent(all, v) {
      assert all[0] == f;
      forall i | 0 <= i < |rest| && rest[i].required && !rest[i].hasDefault ensures HasMember(v, rest[i].wire) {
        assert all[i + 1] == rest[i];
      }
    }
  }

  lemma BuiltinMeaning(defs: Defs, c: Checks, b: Builtin, v: Json, seen: set<string>)
    ensures Eval(defs, c, BuiltinSchema(b), v, seen) == Decide(BuiltinAdmits(c, b, v))
  {
    PlainMeaning(defs, c, BuiltinSchema(b), v, seen);
  }

  // How many unfoldings are enough: one for every alias step at each level.
  ghost function Budget(names: nat, depth: nat): nat {
    if depth == 0 then 0 else Budget(names, depth - 1) + names + 1
  }

  ghost function Enough(t: TypeTable, ranks: Ranks, e: TypeExpr, v: Json): nat {
    Budget(|t.defs|, Depth(v)) + ExprRank(ranks, e)
  }

  lemma ExprRankBound(t: TypeTable, ranks: Ranks, e: TypeExpr)
    requires Ranked(t, ranks)
    ensures ExprRank(ranks, e) <= |t.defs|
  {}

  lemma {:induction false} BudgetMonotone(names: nat, d: nat, more: nat)
    requires d <= more
    ensures Budget(names, d) <= Budget(names, more)
    decreases more
  {
    if d < more {
      BudgetMonotone(names, d, more - 1);
    }
  }

  lemma {:induction false} ItemDepth(items: seq<Json>, i: nat)
    requires i < |items|
    ensures Depth(items[i]) <= ItemsDepth(items)
  {
    if i > 0 {
      assert items[1..][i - 1] == items[i];
      ItemDepth(items[1..], i - 1);
    }
  }

  lemma {:induction false} MemberDepthBound(ms: seq<(string, Json)>, i: nat)
    requires i < |ms|
    ensures Depth(ms[i].1) <= MembersDepth(ms)
  {
    if i > 0 {
      assert ms[1..][i - 1] == ms[i];
      MemberDepthBound(ms[1..], i - 1);
    }
  }

  lemma DeeperIsEnough(t: TypeTable, ranks: Ranks, e: TypeExpr, inner: Json, d: nat, k: nat)
    requires Ranked(t, ranks) && Depth(inner) < d && Budget(|t.defs|, d) <= k + 1
    ensures Enough(t, ranks, e, inner) <= k
  {
    ExprRankBound(t, ranks, e);
    BudgetMonotone(|t.defs|, Depth(inner), d - 1);
  }

  ghost predicate SeenAbove(ranks: Ranks, e: TypeExpr, seen: set<string>) {
    forall n :: n in seen ==> n in ranks && ExprRank(ranks, e) < ranks[n]
  }

  // The projection keeps the meaning: on a guarded (so ranked) table, evaluating the
  // emitted schema never gets stuck and accepts exactly the values of the type.
  lemma {:induction false} ProjectionMeans(t: TypeTable, ranks: Ranks, c: Checks, e: TypeExpr, v: Json, seen: set<string>, k: nat)
    requires Resolved(t) && Ranked(t, ranks) && RefsResolve(t, e)
    requires SeenAbove(ranks, e, seen) && Enough(t, ranks, e, v) <= k
    ensures Eval(DefsOf(t), c, TypeSchema(e), v, seen) == Decide(Fits(t, c, e, v, k))
    decreases v, ExprRank(ranks, e), e, 2
  {
    match e
    case OptionOf(inner) => OptionMeans(t, ranks, c, inner, v, seen, k);
    case ListOf(item) => ListMeans(t, ranks, c, item, v, seen, k);
    case MapOf(value) => MapMeans(t, ranks, c, value, v, seen, k);
    case Named(n) => NamedMeans(t, ranks, c, n, v, seen, k);
    case Base(b) => BuiltinMeaning(DefsOf(t), c, b, v, seen);
  }

  lemma {:induction false} NamedMeans(t: TypeTable, ranks: Ranks, c: Checks, n: string, v: Json, seen: set<string>, k: nat)
    requires Resolved(t) && Ranked(t, ranks) && RefsResolve(t, Named(n))
    requires SeenAbove(ranks, Named(n), seen) && Enough(t, ranks, Named(n), v) <= k
    ensures Eval(DefsOf(t), c, TypeSchema(Named(n)), v, seen) == Decide(Fits(t, c, Named(n), v, k))
    decreases v, ExprRank(ranks, Named(n)), Named(n), 1
  {
    assert NamedIn(Named(n))[0] == n;
    assert n !in seen;
    RefMeaning(DefsOf(t), c, n, v, seen);
    DefMeans(t, ranks, c, n, v, seen, k);
  }

  lemma {:induction false} OptionMeans(t: TypeTable, ranks: Ranks, c: Checks, inner: TypeExpr, v: Json, seen: set<string>, k: nat)
    requires Resolved(t) && Ranked(t, ranks) && RefsResolve(t, OptionOf(inner))
    requires SeenAbove(ranks, OptionOf(inner), seen) && Enough(t, ranks, OptionOf(inner), v) <= k
    ensures Eval(DefsOf(t), c, TypeSchema(OptionOf(inner)), v, seen) == Decide(Fits(t, c, OptionOf(inner), v, k))
    decreases v, ExprRank(ranks, OptionOf(inner)), OptionOf(inner), 1
  {
    assert RefsResolve(t, inner) by {
      assert NamedIn(OptionOf(inner)) == NamedIn(inner);
    }
    ProjectionMeans(t, ranks, c, inner, v, seen, k);
    NullableMeaning(DefsOf(t), c, TypeSchema(inner), v, seen);
  }

  lemma {:induction false} ListMeans(t: TypeTable, ranks: Ranks, c: Checks, item: TypeExpr, v: Json, seen: set<string>, k: nat)
    requires Resolved(t) && Ranked(t, ranks) && RefsResolve(t, ListOf(item))
    requires Budget(|t.defs|, Depth(v)) <= k
    ensures Eval(DefsOf(t), c, TypeSchema(ListOf(item)), v, seen) == Decide(Fits(t, c, ListOf(item), v, k))
    decreases v, 0, ListOf(item), 0
  {
    var defs, s := DefsOf(t), TypeSchema(item);
    ArrayMeaning(defs, c, s, v, seen);
    if v.Arr? {
      assert NamedIn(ListOf(item)) == NamedIn(item);
      forall i | 0 <= i < |v.items|
        ensures Eval(defs, c, s, v.items[i], {}) == Decide(Fits(t, c, item, v.items[i], k))
      {
        ItemDepth(v.items, i);
        DeeperIsEnough(t, ranks, item, v.items[i], Depth(v), k);
        ProjectionMeans(t, ranks, c, item, v.items[i], {}, k);
      }
      ItemsPointwise(defs, c, s, v.items);
    }
  }

  lemma {:induction false} MapMeans(t: TypeTable, ranks: Ranks, c: Checks, value: TypeExpr, v: Json, seen: set<string>, k: nat)
    requires Resolved(t) && Ranked(t, ranks) && RefsResolve(t, MapOf(value))
    requires Budget(|t.defs|, Depth(v)) <= k
    ensures Eval(DefsOf(t), c, TypeSchema(MapOf(value)), v, seen) == Decide(Fits(t, c, MapOf(value), v, k))
    decreases v, 0, MapOf(value), 0
  {
    var defs, s := DefsOf(t), TypeSchema(value);
    MapMeaning(defs, c, s, v, seen);
    if v.Obj? {
      assert NamedIn(MapOf(value)) == NamedIn(value);
      forall i | 0 <= i < |v.members|
        ensures EvalMember(defs, c, [], Each(s), v.members[i]) == Decide(Fits(t, c, value, v.members[i].1, k))
      {
        MemberDepthBound(v.members, i);
        DeeperIsEnough(t, ranks, value, v.members[i].1, Depth(v), k);
        MemberSmaller(v, i);
        ProjectionMeans(t, ranks, c, value, v.members[i].1, {}, k);
      }
      MembersPointwise(defs, c, [], Each(s), v.members);
    }
  }

  lemma MemberSmaller(v: Json, i: nat)
    requires v.Obj? && i < |v.members|
    ensures v.members[i].1 < v
  {
    var m := v.members[i];
    assert m in v.members;
  }

  lemma {:induction false} DefMeans(t: TypeTable, ranks: Ranks, c: Checks, n: string, v: Json, seen: set<string>, k: nat)
    requires Resolved(t) && Ranked(t, ranks) && n in t.defs
    requires SeenAbove(ranks, Named(n), seen) && Enough(t, ranks, Named(n), v) <= k
    ensures k > 0 && Eval(DefsOf(t), c, DefnSchema(t.defs[n]), v, seen + {n}) == Decide(FitsDef(t, c, t.defs[n], v, k - 1))
    decreases v, ranks[n], Named(n), 0
  {
    var d, more := t.defs[n], seen + {n};
    assert DefResolves(t, d);
    match d
    case AliasDef(target) =>
      assert SeenAbove(ranks, target, more);
      ProjectionMeans(t, ranks, c, target, v, more, k - 1);
    case RecordDef(fields) => RecordMeans(t, ranks, c, fields, v, more, k - 1);
    case EnumDef(variants) => EnumMeaning(DefsOf(t), c, variants, v, more);
    case ScalarDef(base) => BuiltinMeaning(DefsOf(t), c, base, v, more);
  }

  lemma EnumMeaning(defs: Defs, c: Checks, variants: seq<string>, v: Json, seen: set<string>)
    ensures Eval(defs, c, DefnSchema(EnumDef(variants)), v, seen) == Decide(v.Str? && v.s in variants)
  {
    PlainMeaning(defs, c, DefnSchema(EnumDef(variants)), v, seen);
  }

  // A closed object means its fields, once every member does.
  lemma RecordFromMembers(t: TypeTable, c: Checks, fields: seq<Field>, v: Json, seen: set<string>, k: nat)
    requires v.Obj? ==> forall j :: 0 <= j < |v.members| ==>
      EvalMember(DefsOf(t), c, FieldProperties(fields), Forbidden, v.members[j]) == Decide(FitsField(t, c, fields, v.members[j], k))
    ensures Eval(DefsOf(t), c, ClosedObject(FieldProperties(fields), RequiredFields(fields)), v, seen)
         == Decide(FitsDef(t, c, RecordDef(fields), v, k))
  {
    var defs, props, required := DefsOf(t), FieldProperties(fields), RequiredFields(fields);
    ObjectMeaning(defs, c, props, required, v, seen);
    if v.Obj? {
      RequiredOf(fields, v);
      assert AllPresent(required, v) == forall i :: 0 <= i < |required| ==> Get(v.members, required[i]).Some?;
      MembersPointwise(defs, c, props, Forbidden, v.members);
    }
  }

  lemma {:induction false} RecordMeans(t: TypeTable, ranks: Ranks, c: Checks, fields: seq<Field>, v: Json, seen: set<string>, k: nat)
    requires Resolved(t) && Ranked(t, ranks) && DefResolves(t, RecordDef(fields))
    requires Budget(|t.defs|, Depth(v)) <= k + 1
    ensures Eval(DefsOf(t), c, ClosedObject(FieldProperties(fields), RequiredFields(fields)), v, seen)
         == Decide(FitsDef(t, c, RecordDef(fields), v, k))
    decreases v, 0, Named(""), 0
  {
    if v.Obj? {
      var defs, props := DefsOf(t), FieldProperties(fields);
      forall j | 0 <= j < |v.members|
        ensures EvalMember(defs, c, props, Forbidden, v.members[j]) == Decide(FitsField(t, c, fields, v.members[j], k))
      {
        MemberDepthBound(v.members, j);
        MemberSmaller(v, j);
        FieldMeans(t, ranks, c, fields, v.members[j], k, Depth(v));
      }
    }
    RecordFromMembers(t, c, fields, v, seen, k);
  }

  lemma {:induction false} FieldMeans(t: TypeTable, ranks: Ranks, c: Checks, fields: seq<Field>, m: (string, Json), k: nat, d: nat)
    requires Resolved(t) && Ranked(t, ranks) && DefResolves(t, RecordDef(fields))
    requires Depth(m.1) < d && Budget(|t.defs|, d) <= k + 1
    ensures EvalMember(DefsOf(t), c, FieldProperties(fields), Forbidden, m) == Decide(FitsField(t, c, fields, m, k))
    decreases m.1, |t.defs| + 1
  {
    if i :| 0 <= i < |fields| && fields[i].wire == m.0 {
      PropertyOf(fields, i);
      DeeperIsEnough(t, ranks, fields[i].ftype, m.1, d, k);
      ProjectionMeans(t, ranks, c, fields[i].ftype, m.1, {}, k);
      assert forall x :: 0 <= x < |fields| && fields[x].wire == m.0 ==> x == i;
    } else {
      NoProperty(fields, m.0);
    }
  }

  lemma EnoughSuffices(t: TypeTable, ranks: Ranks, c: Checks, e: TypeExpr, v: Json)
    requires Resolved(t) && Ranked(t, ranks) && RefsResolve(t, e)
    ensures Conforms(t, c, e, v) <==> Fits(t, c, e, v, Enough(t, ranks, e, v))
  {
    var enough := Enough(t, ranks, e, v);
    if k: nat :| Fits(t, c, e, v, k) {
      var more := k + enough;
      FitsMonotone(t, c, e, v, k, more);
      ProjectionMeans(t, ranks, c, e, v, {}, more);
      ProjectionMeans(t, ranks, c, e, v, {}, enough);
    }
  }

  // Main statement, without fuel: conformance is acceptance, and evaluation
  // always ends.
  lemma SchemaMeansType(t: TypeTable, c: Checks, e: TypeExpr, v: Json)
    requires Resolved(t) && Guarded(t) && RefsResolve(t, e)
    ensures Eval(DefsOf(t), c, TypeSchema(e), v, {}) == Decide(Conforms(t, c, e, v))
  {
    var ranks := GuardedRanks(t);
    EnoughSuffices(t, ranks, c, e, v);
    ProjectionMeans(t, ranks, c, e, v, {}, Enough(t, ranks, e, v));
  }
}

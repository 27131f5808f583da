// Comparing two authority manifests (scripts/compare-authority-artifacts.py).
module ManifestDiff {
  import opened Basics

  // A float without NaN: comparison of the others is comparison of values.
  datatype Float = Finite(value: real) | PosInf | NegInf

  // What `json.load` gives. Two dicts are equal when they map the same keys to
  // equal values, in whatever order the keys were read.
  datatype PyJson =
    | PyNone
    | PyBool(b: bool)
    | PyInt(n: int)
    | PyFloat(x: Float)
    | PyStr(s: string)
    | PyList(items: seq<PyJson>)
    | PyDict(entries: map<string, PyJson>)

  datatype DiffKind = TypeMismatch | MissingRight | MissingLeft | LengthMismatch | ValueMismatch

  datatype Difference = Difference(path: string, kind: DiffKind)

  /** `type(left) is type(right)`. */
  predicate SameType(l: PyJson, r: PyJson) {
    match l
    case PyNone => r.PyNone?
    case PyBool(_) => r.PyBool?
    case PyInt(_) => r.PyInt?
    case PyFloat(_) => r.PyFloat?
    case PyStr(_) => r.PyStr?
    case PyList(_) => r.PyList?
    case PyDict(_) => r.PyDict?
  }

  function OrRoot(pointer: string): string {
    if pointer == "" then "/" else pointer
  }

  function Below(pointer: string, key: string): string {
    pointer + "/" + key
  }

  function Shorter(a: nat, b: nat): nat { if a < b then a else b }

  /** `d` names something that really differs between the two trees. */
  ghost predicate Real(d: Difference, l: PyJson, r: PyJson, pointer: string)
    decreases l
  {
    if !SameType(l, r) then d == Difference(OrRoot(pointer), TypeMismatch)
    else if l.PyDict? then
      || (exists k :: k in l.entries && k !in r.entries && d == Difference(Below(pointer, k), MissingRight))
      || (exists k :: k in r.entries && k !in l.entries && d == Difference(Below(pointer, k), MissingLeft))
      || (exists k :: k in l.entries && k in r.entries && Real(d, l.entries[k], r.entries[k], Below(pointer, k)))
    else if l.PyList? then
      || (|l.items| != |r.items| && d == Difference(OrRoot(pointer), LengthMismatch))
      || (exists i :: 0 <= i < Shorter(|l.items|, |r.items|)
            && Real(d, l.items[i], r.items[i], Below(pointer, Decimal(i))))
    else l != r && d == Difference(OrRoot(pointer), ValueMismatch)
  }

  class Comparison {
    var differences: seq<Difference>

    constructor ()
      ensures differences == []
    {
      differences := [];
    }

    /** `_walk`. */
    method Walk(l: PyJson, r: PyJson, pointer: string)
      modifies this
      ensures old(differences) <= differences
      ensures forall d :: d in differences <==> d in old(differences) || Real(d, l, r, pointer)
      decreases l
    {
      if !SameType(l, r) {
        differences := differences + [Difference(OrRoot(pointer), TypeMismatch)];
        return;
      }
      if l.PyDict? {
        MissingKeys(l.entries.Keys - r.entries.Keys, pointer, MissingRight);
        MissingKeys(r.entries.Keys - l.entries.Keys, pointer, MissingLeft);
        WalkEntries(l, r, pointer);
      } else if l.PyList? {
        if |l.items| != |r.items| {
          differences := differences + [Difference(OrRoot(pointer), LengthMismatch)];
        }
        WalkItems(l, r, pointer);
      } else if l != r {
        differences := differences + [Difference(OrRoot(pointer), ValueMismatch)];
      }
    }

    method MissingKeys(keys: set<string>, pointer: string, kind: DiffKind)
      modifies this
      ensures old(differences) <= differences
      ensures forall d :: d in differences <==>
        d in old(differences) || exists k :: k in keys && d == Difference(Below(pointer, k), kind)
    {
      var left := keys;
      while left != {}
        invariant left <= keys
        invariant old(differences) <= differences
        invariant forall d :: d in differences <==>
          d in old(differences) || exists k :: k in keys - left && d == Difference(Below(pointer, k), kind)
        decreases left
      {
        var key :| key in left;
        differences := differences + [Difference(Below(pointer, key), kind)];
        left := left - {key};
      }
    }

    method WalkEntries(l: PyJson, r: PyJson, pointer: string)
      requires l.PyDict? && r.PyDict?
      modifies this
      ensures old(differences) <= differences
      ensures forall d :: d in differences <==> (d in old(differences)
        || exists k :: k in l.entries && k in r.entries && Real(d, l.entries[k], r.entries[k], Below(pointer, k)))
      decreases l, 0
    {
      var both := l.entries.Keys * r.entries.Keys;
      var left := both;
      while left != {}
        invariant left <= both
        invariant old(differences) <= differences
        invariant forall d :: d in differences <==> (d in old(differences)
          || exists k :: k in both - left && Real(d, l.entries[k], r.entries[k], Below(pointer, k)))
        decreases left
      {
        var key :| key in left;
        Walk(l.entries[key], r.entries[key], Below(pointer, key));
        left := left - {key};
      }
    }

    method WalkItems(l: PyJson, r: PyJson, pointer: string)
      requires l.PyList? && r.PyList?
      modifies this
      ensures old(differences) <= differences
      ensures forall d :: d in differences <==> (d in old(differences)
        || exists i :: 0 <= i < Shorter(|l.items|, |r.items|)
             && Real(d, l.items[i], r.items[i], Below(pointer, Decimal(i))))
      decreases l, 0
    {
      var n := Shorter(|l.items|, |r.items|);
      var i := 0;
      while i < n
        invariant 0 <= i <= n
        invariant old(differences) <= differences
        invariant forall d :: d in differences <==> (d in old(differences)
          || exists j :: 0 <= j < i && Real(d, l.items[j], r.items[j], Below(pointer, Decimal(j))))
      {
        Walk(l.items[i], r.items[i], Below(pointer, Decimal(i)));
        i := i + 1;
      }
    }
  }

  // ---------------------------------------------------------- what it means

  // A tree differs from itself nowhere.
  lemma {:induction false} NothingDiffers(d: Difference, l: PyJson, pointer: string)
    ensures !Real(d, l, l, pointer)
    decreases l
  {
    if l.PyDict? {
      forall k | k in l.entries ensures !Real(d, l.entries[k], l.entries[k], Below(pointer, k)) {
        NothingDiffers(d, l.entries[k], Below(pointer, k));
      }
    } else if l.PyList? {
      forall i | 0 <= i < |l.items| ensures !Real(d, l.items[i], l.items[i], Below(pointer, Decimal(i))) {
        NothingDiffers(d, l.items[i], Below(pointer, Decimal(i)));
      }
    }
  }

  // Two different trees differ somewhere.
  lemma {:induction false} SomethingDiffers(l: PyJson, r: PyJson, pointer: string) returns (d: Difference)
    requires l != r
    ensures Real(d, l, r, pointer)
    decreases l
  {
    if !SameType(l, r) {
      d := Difference(OrRoot(pointer), TypeMismatch);
    } else if l.PyDict? {
      d := EntriesDiffer(l, r, pointer);
    } else if l.PyList? {
      if |l.items| != |r.items| {
        d := Difference(OrRoot(pointer), LengthMismatch);
      } else {
        var i :| 0 <= i < |l.items| && l.items[i] != r.items[i];
        d := SomethingDiffers(l.items[i], r.items[i], Below(pointer, Decimal(i)));
      }
    } else {
      d := Difference(OrRoot(pointer), ValueMismatch);
    }
  }

  lemma {:induction false} EntriesDiffer(l: PyJson, r: PyJson, pointer: string) returns (d: Difference)
    requires l.PyDict? && r.PyDict? && l.entries != r.entries
    ensures Real(d, l, r, pointer)
    decreases l, 0
  {
    if k :| k in l.entries && k !in r.entries {
      d := Difference(Below(pointer, k), MissingRight);
    } else if k :| k in r.entries && k !in l.entries {
      d := Difference(Below(pointer, k), MissingLeft);
    } else {
      assert l.entries.Keys == r.entries.Keys;
      var k :| k in l.entries && l.entries[k] != r.entries[k];
      d := SomethingDiffers(l.entries[k], r.entries[k], Below(pointer, k));
    }
  }

  // The walk records no difference exactly when the trees are equal, types
  // included.
  ghost predicate NoDifference(l: PyJson, r: PyJson, pointer: string) {
    forall d :: !Real(d, l, r, pointer)
  }

  lemma EqualIffNoDifference(l: PyJson, r: PyJson, pointer: string)
    ensures l == r <==> NoDifference(l, r, pointer)
  {
    if l == r {
      forall d ensures !Real(d, l, r, pointer) {
        NothingDiffers(d, l, pointer);
      }
    } else {
      var d := SomethingDiffers(l, r, pointer);
      assert Real(d, l, r, pointer);
    }
  }

  // -------------------------------------------------------------- manifests

  datatype HeaderError = NotAnObject | WrongVersion | WrongAuthority | ArtifactsNotObject | ArtifactsIncomplete

  /** `document.get("schemaVersion") == 1`, with Python's cross-type equality. */
  predicate EqualsOne(v: PyJson) {
    v == PyInt(1) || v == PyFloat(Finite(1.0)) || v == PyBool(true)
  }

  function Member(document: PyJson, key: string): PyJson
    requires document.PyDict?
  {
    if key in document.entries then document.entries[key] else PyNone
  }

  predicate Complete(artifacts: PyJson) {
    artifacts.PyDict? && "sql" in artifacts.entries && "clientTypes" in artifacts.entries
  }

  /** A manifest with the header this name asks for. */
  predicate GoodManifest(document: PyJson, name: string) {
    && document.PyDict?
    && EqualsOne(Member(document, "schemaVersion"))
    && Member(document, "authority") == PyStr(name)
    && Complete(Member(document, "artifacts"))
  }

  /** When each header error is due. */
  predicate HeaderFault(document: PyJson, name: string, e: HeaderError) {
    if !document.PyDict? then e == NotAnObject
    else
      var artifacts := Member(document, "artifacts");
      || (e == WrongVersion && !EqualsOne(Member(document, "schemaVersion")))
      || (e == WrongAuthority && Member(document, "authority") != PyStr(name))
      || (e == ArtifactsNotObject && !artifacts.PyDict?)
      || (e == ArtifactsIncomplete && artifacts.PyDict? && !Complete(artifacts))
  }

  datatype Report = Report(proceed: bool, errors: seq<(string, HeaderError)>, differences: seq<Difference>)

  method HeaderErrors(document: PyJson, name: string) returns (errors: seq<(string, HeaderError)>)
    ensures forall e :: e in errors <==> e.0 == name && HeaderFault(document, name, e.1)
    ensures errors == [] <==> GoodManifest(document, name)
  {
    if !document.PyDict? {
      return [(name, NotAnObject)];
    }
    errors := [];
    if !EqualsOne(Member(document, "schemaVersion")) {
      errors := errors + [(name, WrongVersion)];
    }
    if Member(document, "authority") != PyStr(name) {
      errors := errors + [(name, WrongAuthority)];
    }
    var artifacts := Member(document, "artifacts");
    if !artifacts.PyDict? {
      errors := errors + [(name, ArtifactsNotObject)];
    } else if !Complete(artifacts) {
      errors := errors + [(name, ArtifactsIncomplete)];
    }
  }

  /** `compare_manifests`: continue exactly when both headers are good and the
      artifacts are equal. */
  method CompareManifests(left: PyJson, right: PyJson, leftLabel: string, rightLabel: string) returns (report: Report)
    ensures report.proceed <==>
      && GoodManifest(left, leftLabel) && GoodManifest(right, rightLabel)
      && left.entries["artifacts"] == right.entries["artifacts"]
    ensures report.errors == [] <==> GoodManifest(left, leftLabel) && GoodManifest(right, rightLabel)
    ensures forall e :: e in report.errors <==>
      (e.0 == leftLabel && HeaderFault(left, leftLabel, e.1)) || (e.0 == rightLabel && HeaderFault(right, rightLabel, e.1))
    ensures report.errors == [] ==>
      forall d :: d in report.differences <==>
        Real(d, left.entries["artifacts"], right.entries["artifacts"], "/artifacts")
    ensures report.errors != [] ==> report.differences == []
  {
    var leftErrors := HeaderErrors(left, leftLabel);
    var rightErrors := HeaderErrors(right, rightLabel);
    var errors := leftErrors + rightErrors;
    assert errors == [] <==> leftErrors == [] && rightErrors == [];
    if errors != [] {
      return Report(false, errors, []);
    }
    var run := new Comparison();
    var a, b := left.entries["artifacts"], right.entries["artifacts"];
    run.Walk(a, b, "/artifacts");
    EqualIffNoDifference(a, b, "/artifacts");
    if run.differences != [] {
      assert run.differences[0] in run.differences;
      assert Real(run.differences[0], a, b, "/artifacts");
    } else {
      assert NoDifference(a, b, "/artifacts");
    }
    report := Report(run.differences == [], [], run.differences);
  }
}

// The rules of `Frame::validate` (runtime/rust/frame.rs), each on its own, and
// the order in which a broken one is reported.
module FrameRules {
  import opened Basics
  import opened Frames
  import opened MetaOrder

  predicate Missing(s: Option<string>) { s.None? || s.value == "" }

  ghost predicate Repeats(ms: Pairs, j: int) {
    0 <= j < |ms| && exists i :: 0 <= i < j && ms[i].0 == ms[j].0
  }

  /** The entry at `j` is the first that takes a name already taken. */
  ghost predicate RepeatsFirst(ms: Pairs, j: int) {
    Repeats(ms, j) && forall k :: 0 <= k < j ==> !Repeats(ms, k)
  }

  ghost predicate Breaks(f: Frame, e: FrameError) {
    match e
    case UnsupportedVersion => f.v != 1
    case BadId => |f.id| == 0 || |f.id| > 128
    case NeedsKey => f.kind.Call? && Missing(f.key)
    case NeedsMethod => f.kind.Call? && Missing(f.method_)
    case NeedsPath => f.kind.Call? && (Missing(f.path) || f.path.value[0] != '/')
    case CarriesAddressing => !f.kind.Call? && (f.key.Some? || f.method_.Some? || f.path.Some? || f.query != [])
    case NeedsBody => f.kind.Data? && f.body.None?
    case NeedsCode => f.kind.Error? && Missing(f.code)
    case CarriesCode => !f.kind.Error? && (f.code.Some? || f.message.Some?)
    case DuplicateMeta(name) => exists j :: RepeatsFirst(f.meta, j) && f.meta[j].0 == name
    case _ => false
  }

  /** Where a rule stands in `validate`. */
  function Turn(e: FrameError): nat {
    match e
    case UnsupportedVersion => 0
    case BadId => 1
    case NeedsKey => 2
    case NeedsMethod => 3
    case NeedsPath => 4
    case CarriesAddressing => 5
    case NeedsBody => 6
    case NeedsCode => 7
    case CarriesCode => 8
    case _ => 9
  }

  ghost predicate NoneBefore(f: Frame, e: FrameError) {
    forall d :: Breaks(f, d) ==> Turn(e) <= Turn(d)
  }

  lemma ShapeBreaks(f: Frame, e: FrameError)
    requires CheckShape(f) == Some(e)
    ensures Breaks(f, e) && NoneBefore(f, e)
  {}

  lemma ShapeHolds(f: Frame, e: FrameError)
    requires CheckShape(f).None? && Breaks(f, e)
    ensures e.DuplicateMeta?
  {}

  lemma NameInPrefix(ms: Pairs, j: nat)
    requires j < |ms|
    ensures NameIn(ms[..j], ms[j].0) <==> Repeats(ms, j)
  {
    if NameIn(ms[..j], ms[j].0) {
      var i :| 0 <= i < j && ms[..j][i].0 == ms[j].0;
      assert ms[i].0 == ms[j].0;
    }
    if Repeats(ms, j) {
      var i :| 0 <= i < j && ms[i].0 == ms[j].0;
      assert ms[..j][i].0 == ms[j].0;
    }
  }

  lemma {:induction false} FirstRepeatIs(ms: Pairs, n: nat)
    requires n <= |ms| && forall k :: 0 <= k < n ==> !Repeats(ms, k)
    ensures var r := FirstRepeat(ms[..n], ms[n..]);
      && (r.Some? ==> exists j :: RepeatsFirst(ms, j) && ms[j].0 == r.value)
      && (r.None? ==> forall k :: !Repeats(ms, k))
    decreases |ms| - n
  {
    if n < |ms| {
      NameInPrefix(ms, n);
      if Repeats(ms, n) {
        assert RepeatsFirst(ms, n);
      } else {
        assert ms[..n] + [ms[n]] == ms[..n + 1] && ms[n..][1..] == ms[n + 1..];
        FirstRepeatIs(ms, n + 1);
      }
    }
  }

  lemma SameTurn(f: Frame, d: FrameError, e: FrameError)
    requires Breaks(f, d) && Breaks(f, e) && Turn(d) == Turn(e)
    ensures d == e
  {
    if d.DuplicateMeta? {
      var i :| RepeatsFirst(f.meta, i) && f.meta[i].0 == d.name;
      var j :| RepeatsFirst(f.meta, j) && f.meta[j].0 == e.name;
      assert i == j;
    }
  }

  lemma CheckBreaks(f: Frame)
    ensures Check(f).Some? ==> Breaks(f, Check(f).value) && NoneBefore(f, Check(f).value)
    ensures Check(f).None? ==> forall d :: !Breaks(f, d)
  {
    if CheckShape(f).Some? {
      ShapeBreaks(f, CheckShape(f).value);
    } else {
      assert f.meta[..0] == [] && f.meta[0..] == f.meta;
      FirstRepeatIs(f.meta, 0);
      forall d | Breaks(f, d) ensures d.DuplicateMeta? {
        ShapeHolds(f, d);
      }
    }
  }

  // The error reported is that of the first rule broken; a repeated name is
  // that of the first entry that repeats one.
  lemma ReportedIffFirst(f: Frame, e: FrameError)
    ensures Check(f) == Some(e) <==> Breaks(f, e) && NoneBefore(f, e)
  {
    CheckBreaks(f);
    if Breaks(f, e) && NoneBefore(f, e) {
      SameTurn(f, Check(f).value, e);
    }
  }
}

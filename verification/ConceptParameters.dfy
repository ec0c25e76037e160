/** Scalar parameters that are constant between dates, and the finite check that two of them agree. */
module ConceptParameters {
  import opened Common

  const MAX_DATE := 3_652_059

  /** A calendar date, by its proleptic ordinal. */
  type Date = d: int | 1 <= d <= MAX_DATE witness 1

  datatype Version = Version(start: Date, end: Option<Date>, value: real) {
    predicate Covers(at: Date) { start <= at && (end.None? || at <= end.value) }
  }

  datatype Window = Window(from: Date, to: Date) {
    predicate Has(at: Date) { from <= at <= to }
  }

  /** The value of the last version that covers the date. */
  function Active(versions: seq<Version>, at: Date): Option<real> {
    if versions == [] then None
    else
      var last := versions[|versions| - 1];
      if last.Covers(at) then Some(last.value) else Active(versions[..|versions| - 1], at)
  }

  method ActiveParameterValue(versions: seq<Version>, at: Date) returns (active: Option<real>)
    ensures active == Active(versions, at)
  {
    active := None;
    for i := 0 to |versions|
      invariant active == Active(versions[..i], at)
    {
      assert versions[..i + 1][..i] == versions[..i];
      if versions[i].Covers(at) { active := Some(versions[i].value); }
    }
    assert versions[..|versions|] == versions;
  }

  /** A date is active with a value exactly when some version covers it with that value and no later one does. */
  lemma {:induction false} ActiveIsLastCovering(versions: seq<Version>, at: Date, value: real)
    ensures Active(versions, at) == Some(value) <==>
            exists i :: 0 <= i < |versions| && versions[i].Covers(at) && versions[i].value == value &&
              forall j :: i < j < |versions| ==> !versions[j].Covers(at)
  {
    if versions != [] {
      var n := |versions| - 1;
      if !versions[n].Covers(at) {
        ActiveIsLastCovering(versions[..n], at, value);
        if i :| 0 <= i < |versions| && versions[i].Covers(at) && versions[i].value == value &&
                forall j :: i < j < |versions| ==> !versions[j].Covers(at) {
          assert versions[..n][i].Covers(at);
        }
      }
    }
  }

  /** Both parameters have a value on the date, and it is the same. */
  predicate Agree(before: seq<Version>, after: seq<Version>, at: Date) {
    Active(before, at).Some? && Active(before, at) == Active(after, at)
  }

  predicate AgreeThroughout(before: seq<Version>, after: seq<Version>, w: Window) {
    forall d: Date :: w.Has(d) ==> Agree(before, after, d)
  }

  // ---------------------------------------------------------------- the probes

  function VersionProbes(v: Version, w: Window): set<Date> {
    (if w.Has(v.start) then {v.start} else {}) +
    (if v.end.Some? && v.end.value < MAX_DATE && w.Has(v.end.value + 1) then {v.end.value + 1} else {})
  }

  function ProbesOf(versions: seq<Version>, w: Window): set<Date> {
    if versions == [] then {}
    else ProbesOf(versions[..|versions| - 1], w) + VersionProbes(versions[|versions| - 1], w)
  }

  function Probes(before: seq<Version>, after: seq<Version>, w: Window): set<Date> {
    {w.from, w.to} + ProbesOf(before, w) + ProbesOf(after, w)
  }

  predicate ProbesAgree(before: seq<Version>, after: seq<Version>, w: Window) {
    forall p :: p in Probes(before, after, w) ==> Agree(before, after, p)
  }

  method CollectProbes(versions: seq<Version>, w: Window, sofar: set<Date>) returns (probes: set<Date>)
    ensures probes == sofar + ProbesOf(versions, w)
  {
    probes := sofar;
    for i := 0 to |versions|
      invariant probes == sofar + ProbesOf(versions[..i], w)
    {
      assert versions[..i + 1][..i] == versions[..i];
      var v := versions[i];
      if w.from <= v.start <= w.to { probes := probes + {v.start}; }
      if v.end.Some? && v.end.value < MAX_DATE {
        var next := v.end.value + 1;
        if w.from <= next <= w.to { probes := probes + {next}; }
      }
    }
    assert versions[..|versions|] == versions;
  }

  method ParametersEqualOverWindows(before: seq<Version>, after: seq<Version>, windows: seq<Window>)
    returns (equal: bool)
    ensures equal <==> forall k :: 0 <= k < |windows| ==> ProbesAgree(before, after, windows[k])
  {
    for i := 0 to |windows|
      invariant forall k :: 0 <= k < i ==> ProbesAgree(before, after, windows[k])
    {
      var probes := CollectProbes(before, windows[i], {windows[i].from, windows[i].to});
      probes := CollectProbes(after, windows[i], probes);
      assert probes == Probes(before, after, windows[i]);
      while probes != {}
        invariant probes <= Probes(before, after, windows[i])
        invariant forall p :: p in Probes(before, after, windows[i]) - probes ==> Agree(before, after, p)
      {
        var probe :| probe in probes;
        var was := ActiveParameterValue(before, probe);
        var now := ActiveParameterValue(after, probe);
        if was.None? || now.None? || was != now {
          assert !Agree(before, after, probe);
          return false;
        }
        probes := probes - {probe};
      }
    }
    return true;
  }

  // ---------------------------------------------------------------- exactness

  /** A parameter changes value only where a version starts or the day after one ends. */
  lemma {:induction false} ChangesAtProbe(versions: seq<Version>, w: Window, d: Date)
    requires w.Has(d) && d > w.from && d !in ProbesOf(versions, w)
    ensures Active(versions, d) == Active(versions, d - 1)
  {
    if versions != [] { ChangesAtProbe(versions[..|versions| - 1], w, d); }
  }

  lemma {:induction false} AgreeFromProbes(before: seq<Version>, after: seq<Version>, w: Window, d: Date)
    requires ProbesAgree(before, after, w) && w.Has(d)
    ensures Agree(before, after, d)
    decreases d
  {
    if d !in Probes(before, after, w) {
      AgreeFromProbes(before, after, w, d - 1);
      ChangesAtProbe(before, w, d);
      ChangesAtProbe(after, w, d);
    }
  }

  lemma {:induction false} ProbesInside(versions: seq<Version>, w: Window, p: Date)
    requires p in ProbesOf(versions, w)
    ensures w.Has(p)
  {
    if p in ProbesOf(versions[..|versions| - 1], w) { ProbesInside(versions[..|versions| - 1], w, p); }
  }

  /** On a window that is not inverted the finite check says exactly that the parameters agree on every date. */
  lemma ProbesAreExact(before: seq<Version>, after: seq<Version>, w: Window)
    requires w.from <= w.to
    ensures ProbesAgree(before, after, w) <==> AgreeThroughout(before, after, w)
  {
    if ProbesAgree(before, after, w) {
      forall d: Date | w.Has(d) ensures Agree(before, after, d) { AgreeFromProbes(before, after, w, d); }
    } else {
      var p :| p in Probes(before, after, w) && !Agree(before, after, p);
      if p in ProbesOf(before, w) { ProbesInside(before, w, p); }
      if p in ProbesOf(after, w) { ProbesInside(after, w, p); }
      assert w.Has(p);
    }
  }
}

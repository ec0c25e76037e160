/** When the derivation of renamings succeeds, and what it then contains, said without its loops. */
module ConceptSuccess {
  import opened Common
  import opened ConceptFormula
  import opened ConceptParameters
  import opened ConceptDerivation
  import opened ConceptRewrite

  // ---------------------------------------------------------------- readable parameters

  predicate Plainly(v: RawVersion) { v.literal.Some? && v.from.Some? && !v.hasTo }

  /** A parameter that is not indexed, whose versions all have a literal and a date and no end, in date order. */
  predicate ReadsAs(rule: Rule, versions: seq<Version>) {
    && rule.surface.kind == "parameter" && rule.surface.indexedBy.None? && rule.versions != []
    && |versions| == |rule.versions|
    && (forall i :: 0 <= i < |versions| ==>
          Plainly(rule.versions[i]) &&
          versions[i] == Version(rule.versions[i].from.value, None, rule.versions[i].literal.value))
    && (forall i, j :: 0 <= i < j < |versions| ==> versions[i].start <= versions[j].start)
  }

  /** The first version that is not plain has an end date. */
  predicate FirstFlawIsEnd(raw: seq<RawVersion>, i: nat) {
    && i < |raw| && raw[i].literal.Some? && raw[i].from.Some? && raw[i].hasTo
    && forall j :: 0 <= j < i ==> Plainly(raw[j])
  }

  lemma {:induction false} ParsedFromIs(raw: seq<RawVersion>)
    ensures ParsedFrom(raw).Readable? <==> forall i :: 0 <= i < |raw| ==> Plainly(raw[i])
    ensures ParsedFrom(raw).Readable? ==>
              && |ParsedFrom(raw).versions| == |raw|
              && forall i :: 0 <= i < |raw| ==>
                   Plainly(raw[i]) &&
                   ParsedFrom(raw).versions[i] == Version(raw[i].from.value, None, raw[i].literal.value)
    ensures ParsedFrom(raw).UsesEffectiveTo? <==> exists i: nat :: FirstFlawIsEnd(raw, i)
  {
    if raw != [] {
      var rest := raw[1..];
      ParsedFromIs(rest);
      assert forall i :: 0 <= i < |rest| ==> rest[i] == raw[i + 1];
      if Plainly(raw[0]) {
        FlawLater(raw);
      } else if raw[0].literal.Some? && raw[0].from.Some? {
        assert FirstFlawIsEnd(raw, 0);
      }
    }
  }

  lemma FlawLater(raw: seq<RawVersion>)
    requires raw != [] && Plainly(raw[0])
    ensures (exists i: nat :: FirstFlawIsEnd(raw, i)) <==> exists i: nat :: FirstFlawIsEnd(raw[1..], i)
  {
    var rest := raw[1..];
    if i: nat :| FirstFlawIsEnd(raw, i) {
      assert FirstFlawIsEnd(rest, i - 1);
    }
    if i: nat :| FirstFlawIsEnd(rest, i) {
      forall j | 0 <= j < i + 1 ensures Plainly(raw[j]) { if j > 0 { assert rest[j - 1] == raw[j]; } }
      assert FirstFlawIsEnd(raw, i + 1);
    }
  }

  /** A parameter is read exactly when it is plain and in order, and refused for an end date exactly when that is
      its first flaw. */
  lemma ParsedIff(rule: Rule, versions: seq<Version>)
    ensures ParsedVersions(rule) == Readable(versions) <==> ReadsAs(rule, versions)
    ensures ParsedVersions(rule).UsesEffectiveTo? <==>
            && rule.surface.kind == "parameter" && rule.surface.indexedBy.None?
            && exists i: nat :: FirstFlawIsEnd(rule.versions, i)
  {
    ParsedFromIs(rule.versions);
  }

  // ---------------------------------------------------------------- one renaming

  /** Import `i` is the only one with the fragment. */
  predicate OnlyImport(imports: seq<string>, name: string, i: nat) {
    i < |imports| && forall k :: 0 <= k < |imports| ==> (Fragment(imports[k]) == name <==> k == i)
  }

  lemma LastOfOne<T>(some: seq<T>, last: T, x: T)
    requires some + [last] == [x]
    ensures some == [] && last == x
  {
    assert |some + [last]| == 1;
    assert (some + [last])[0] == x;
  }

  lemma OnlyImportLast(imports: seq<string>, name: string, i: nat)
    requires imports != [] && Fragment(imports[|imports| - 1]) == name
    ensures OnlyImport(imports, name, i) <==>
            i == |imports| - 1 && forall k :: 0 <= k < |imports| - 1 ==> Fragment(imports[k]) != name
  {
  }

  lemma OnlyImportEarlier(imports: seq<string>, name: string, i: nat)
    requires imports != [] && Fragment(imports[|imports| - 1]) != name
    ensures OnlyImport(imports, name, i) <==> OnlyImport(imports[..|imports| - 1], name, i)
  {
    var init := imports[..|imports| - 1];
    assert forall k :: 0 <= k < |init| ==> init[k] == imports[k];
    if OnlyImport(init, name, i) {
      forall k | 0 <= k < |imports| ensures Fragment(imports[k]) == name <==> k == i {
        if k < |init| { assert imports[k] == init[k]; }
      }
    }
  }

  lemma {:induction false} NoFragments(imports: seq<string>, name: string)
    ensures WithFragment(imports, name) == [] <==> forall k :: 0 <= k < |imports| ==> Fragment(imports[k]) != name
  {
    if imports != [] {
      var init := imports[..|imports| - 1];
      NoFragments(init, name);
      assert forall k :: 0 <= k < |init| ==> init[k] == imports[k];
    }
  }

  /** The list has one element exactly when one import has the fragment, and that is the element. */
  lemma {:induction false} OneFragment(imports: seq<string>, name: string, x: string)
    ensures WithFragment(imports, name) == [x] <==>
            exists i: nat :: OnlyImport(imports, name, i) && imports[i] == x
  {
    if imports != [] {
      var n := |imports| - 1;
      var init := imports[..n];
      if Fragment(imports[n]) == name {
        NoFragments(init, name);
        assert forall k :: 0 <= k < n ==> init[k] == imports[k];
        forall i: nat
          ensures OnlyImport(imports, name, i) <==>
                  i == n && forall k :: 0 <= k < n ==> Fragment(imports[k]) != name
        {
          OnlyImportLast(imports, name, i);
        }
        if WithFragment(imports, name) == [x] {
          LastOfOne(WithFragment(init, name), imports[n], x);
          assert OnlyImport(imports, name, n);
        }
      } else {
        OneFragment(init, name, x);
        forall i: nat ensures OnlyImport(imports, name, i) <==> OnlyImport(init, name, i) {
          OnlyImportEarlier(imports, name, i);
        }
      }
    }
  }

  /** Rule `i` of the destination is the only one of the same surface that agrees in every use. */
  predicate OnlyCandidate(destination: seq<Rule>, surface: Surface, before: seq<Version>, windows: seq<Window>, i: nat)
  {
    && i < |destination|
    && forall k :: 0 <= k < |destination| ==> (IsCandidate(destination[k], surface, before, windows) <==> k == i)
  }

  /** A rule of the same surface that has an end date stops the search. */
  predicate Stops(rule: Rule, surface: Surface) {
    IsConceptName(rule.name) && rule.surface == surface && ParsedVersions(rule).UsesEffectiveTo?
  }

  lemma {:induction false} CandidatesNone(destination: seq<Rule>, surface: Surface, before: seq<Version>,
                                          windows: seq<Window>)
    ensures Candidates(destination, surface, before, windows).None? <==>
            exists k :: 0 <= k < |destination| && Stops(destination[k], surface)
  {
    if destination != [] {
      var n := |destination| - 1;
      var init := destination[..n];
      CandidatesNone(init, surface, before, windows);
      if k :| 0 <= k < n && Stops(init[k], surface) { assert Stops(destination[k], surface); }
      if k :| 0 <= k < n && Stops(destination[k], surface) { assert Stops(init[k], surface); }
    }
  }

  lemma OnlyCandidateLast(destination: seq<Rule>, surface: Surface, before: seq<Version>, windows: seq<Window>, i: nat)
    requires destination != [] && IsCandidate(destination[|destination| - 1], surface, before, windows)
    ensures OnlyCandidate(destination, surface, before, windows, i) <==>
            i == |destination| - 1 &&
            forall k :: 0 <= k < |destination| - 1 ==> !IsCandidate(destination[k], surface, before, windows)
  {
  }

  lemma OnlyCandidateEarlier(destination: seq<Rule>, surface: Surface, before: seq<Version>, windows: seq<Window>,
                             i: nat)
    requires destination != [] && !IsCandidate(destination[|destination| - 1], surface, before, windows)
    ensures OnlyCandidate(destination, surface, before, windows, i) <==>
            OnlyCandidate(destination[..|destination| - 1], surface, before, windows, i)
  {
    var init := destination[..|destination| - 1];
    assert forall k :: 0 <= k < |init| ==> init[k] == destination[k];
    if OnlyCandidate(init, surface, before, windows, i) {
      forall k | 0 <= k < |destination| ensures IsCandidate(destination[k], surface, before, windows) <==> k == i {
        if k < |init| { assert destination[k] == init[k]; }
      }
    }
  }

  lemma NoCandidates(destination: seq<Rule>, surface: Surface, before: seq<Version>, windows: seq<Window>)
    requires Candidates(destination, surface, before, windows).Some?
    ensures Candidates(destination, surface, before, windows).value == [] <==>
            forall k :: 0 <= k < |destination| ==> !IsCandidate(destination[k], surface, before, windows)
  {
    var names := Candidates(destination, surface, before, windows).value;
    CandidatesAre(destination, surface, before, windows);
    if names != [] { assert names[0] in names; }
    if k :| 0 <= k < |destination| && IsCandidate(destination[k], surface, before, windows) {
      assert destination[k].name in names;
    }
  }

  /** One name is found exactly when one rule is a candidate, and it has that name. */
  lemma {:induction false} OneCandidate(destination: seq<Rule>, surface: Surface, before: seq<Version>,
                                        windows: seq<Window>, now: string)
    requires Candidates(destination, surface, before, windows).Some?
    ensures Candidates(destination, surface, before, windows).value == [now] <==>
            exists i: nat :: OnlyCandidate(destination, surface, before, windows, i) && destination[i].name == now
  {
    if destination != [] {
      var n := |destination| - 1;
      var init := destination[..n];
      if IsCandidate(destination[n], surface, before, windows) {
        OneCandidateLast(destination, surface, before, windows, now);
      } else {
        OneCandidate(init, surface, before, windows, now);
        forall i: nat
          ensures OnlyCandidate(destination, surface, before, windows, i) <==>
                  OnlyCandidate(init, surface, before, windows, i)
        {
          OnlyCandidateEarlier(destination, surface, before, windows, i);
        }
      }
    }
  }

  lemma OneCandidateLast(destination: seq<Rule>, surface: Surface, before: seq<Version>, windows: seq<Window>,
                         now: string)
    requires Candidates(destination, surface, before, windows).Some?
    requires destination != [] && IsCandidate(destination[|destination| - 1], surface, before, windows)
    ensures Candidates(destination, surface, before, windows).value == [now] <==>
            exists i: nat :: OnlyCandidate(destination, surface, before, windows, i) && destination[i].name == now
  {
    var n := |destination| - 1;
    var init := destination[..n];
    NoCandidates(init, surface, before, windows);
    assert forall k :: 0 <= k < n ==> init[k] == destination[k];
    var some := Candidates(init, surface, before, windows).value;
    assert Candidates(destination, surface, before, windows).value == some + [destination[n].name];
    if some + [destination[n].name] == [now] {
      LastOfOne(some, destination[n].name, now);
      OnlyCandidateLast(destination, surface, before, windows, n);
    }
    if i: nat :| OnlyCandidate(destination, surface, before, windows, i) && destination[i].name == now {
      OnlyCandidateLast(destination, surface, before, windows, i);
    }
  }

  /** Every version that uses the concept is well dated, and there is one. */
  predicate UsedSoundly(versions: seq<UseVersion>, concept: string) {
    && (forall i :: 0 <= i < |versions| && Uses(versions[i], concept) ==> WellDated(versions[i]))
    && exists i :: 0 <= i < |versions| && Uses(versions[i], concept)
  }

  lemma {:induction false} WindowsIff(versions: seq<UseVersion>, concept: string)
    ensures VersionWindows(versions, concept).Some? <==>
            forall i :: 0 <= i < |versions| && Uses(versions[i], concept) ==> WellDated(versions[i])
    ensures VersionWindows(versions, concept).Some? ==>
              (VersionWindows(versions, concept).value == [] <==>
               forall i :: 0 <= i < |versions| ==> !Uses(versions[i], concept))
  {
    if versions != [] {
      var init := versions[..|versions| - 1];
      WindowsIff(init, concept);
      assert forall i :: 0 <= i < |init| ==> init[i] == versions[i];
    }
  }

  /** The renaming of `was` to `now`: the import is the only one of its name and nothing of the dependent has it,
      the destination no longer has the old parameter, every use is dated, no parameter of the same surface in the
      destination has an end date, exactly one rule of the destination is equivalent in every use, and its name
      is not imported yet. */
  ghost predicate Renamed(dep: Dependent, m: Retained, c: Choice) {
    && c.imported == m.sourceBase + "#" + c.was && IsConceptName(c.was)
    && (exists i: nat :: OnlyImport(dep.imports, c.was, i) && dep.imports[i] == c.imported)
    && c.was !in UsingNames(dep.rules) && c.was !in RuleNames(m.destination)
    && UsedSoundly(AllVersions(dep.rules), c.was)
    && c.target == m.destinationBase + "#" + c.now && !AlreadyImported(dep.imports, c.now)
    && RuleOf(m.source, c.was).Some?
    && var before := RuleOf(m.source, c.was).value;
       && ParsedVersions(before).Readable?
       && (forall k :: 0 <= k < |m.destination| ==> !Stops(m.destination[k], before.surface))
       && (exists i: nat :: OnlyEquivalent(dep, m, c.was, before, i) && m.destination[i].name == c.now)
  }

  /** Rule `i` of the destination is the only one equivalent to the old one in every use. */
  predicate OnlyEquivalent(dep: Dependent, m: Retained, was: string, before: Rule, i: nat) {
    && i < |m.destination|
    && forall k :: 0 <= k < |m.destination| ==>
         (Equivalent(AllVersions(dep.rules), was, before, m.destination[k]) <==> k == i)
  }

  lemma OnlyOfBoth(dep: Dependent, m: Retained, was: string, before: Rule, windows: seq<Window>, i: nat)
    requires VersionWindows(AllVersions(dep.rules), was) == Some(windows) && ParsedVersions(before).Readable?
    ensures OnlyCandidate(m.destination, before.surface, ParsedVersions(before).versions, windows, i) <==>
            OnlyEquivalent(dep, m, was, before, i)
  {
    forall k | 0 <= k < |m.destination|
      ensures IsCandidate(m.destination[k], before.surface, ParsedVersions(before).versions, windows) <==>
              Equivalent(AllVersions(dep.rules), was, before, m.destination[k])
    {
      CandidateIsEquivalent(dep, was, before, m.destination[k], windows);
    }
  }

  lemma SuccessorIff(dep: Dependent, m: Retained, imported: string, was: string, before: Rule, c: Choice)
    ensures SuccessorOf(dep, m, imported, was, before) == Renames(c) <==>
            && c.imported == imported && c.was == was && c.target == m.destinationBase + "#" + c.now
            && UsedSoundly(AllVersions(dep.rules), was) && ParsedVersions(before).Readable?
            && (forall k :: 0 <= k < |m.destination| ==> !Stops(m.destination[k], before.surface))
            && (exists i: nat :: OnlyEquivalent(dep, m, was, before, i) && m.destination[i].name == c.now)
            && !AlreadyImported(dep.imports, c.now)
  {
    WindowsIff(AllVersions(dep.rules), was);
    if VersionWindows(AllVersions(dep.rules), was).Some? && ParsedVersions(before).Readable? {
      var windows, versions := VersionWindows(AllVersions(dep.rules), was).value, ParsedVersions(before).versions;
      CandidatesNone(m.destination, before.surface, versions, windows);
      if Candidates(m.destination, before.surface, versions, windows).Some? {
        OneCandidate(m.destination, before.surface, versions, windows, c.now);
        forall i: nat
          ensures OnlyCandidate(m.destination, before.surface, versions, windows, i) <==>
                  OnlyEquivalent(dep, m, was, before, i)
        {
          OnlyOfBoth(dep, m, was, before, windows, i);
        }
      }
    }
  }

  /** A renaming is chosen for an import exactly when it is one. */
  lemma RenamesIff(dep: Dependent, m: Retained, imported: string, c: Choice)
    ensures OutcomeOf(dep, m, imported) == Renames(c) <==> c.imported == imported && Renamed(dep, m, c)
  {
    var prefix := m.sourceBase + "#";
    if c.imported == prefix + c.was { assert prefix <= c.imported && c.was == c.imported[|prefix|..]; }
    if prefix <= imported {
      var was := imported[|prefix|..];
      assert imported == prefix + was;
      OneFragment(dep.imports, was, imported);
      if RuleOf(m.source, was).Some? { SuccessorIff(dep, m, imported, was, RuleOf(m.source, was).value, c); }
    }
  }

  /** An import is left as it is: it is of another module, or the destination still has its parameter. */
  ghost predicate LeftAlone(dep: Dependent, m: Retained, imported: string) {
    !(m.sourceBase + "#" <= imported) ||
    (exists was :: imported == m.sourceBase + "#" + was && StillThere(dep, m, imported, was))
  }

  ghost predicate StillThere(dep: Dependent, m: Retained, imported: string, was: string) {
    && IsConceptName(was) && (exists i: nat :: OnlyImport(dep.imports, was, i) && dep.imports[i] == imported)
    && was !in UsingNames(dep.rules) && was in RuleNames(m.destination)
  }

  lemma LeftAloneIff(dep: Dependent, m: Retained, imported: string)
    ensures OutcomeOf(dep, m, imported).Irrelevant? <==> LeftAlone(dep, m, imported)
  {
    var prefix := m.sourceBase + "#";
    if prefix <= imported {
      var was := imported[|prefix|..];
      assert imported == prefix + was;
      OneFragment(dep.imports, was, imported);
      if name :| imported == prefix + name && StillThere(dep, m, imported, name) { assert name == was; }
    }
  }

  // ---------------------------------------------------------------- the whole derivation

  /** No import is refused, and no two renamings share an old or a new name. */
  predicate Compatible(outs: seq<Outcome>) {
    && (forall i :: 0 <= i < |outs| ==> !outs[i].Refused?)
    && forall i, j :: 0 <= i < j < |outs| && outs[i].Renames? && outs[j].Renames? ==>
         outs[i].choice.was != outs[j].choice.was && outs[i].choice.now != outs[j].choice.now
  }

  lemma {:induction false} NowsAre(outs: seq<Outcome>, x: string)
    ensures x in Nows(outs) <==> exists i :: 0 <= i < |outs| && outs[i].Renames? && outs[i].choice.now == x
  {
    if outs != [] {
      var n := |outs| - 1;
      NowsAre(outs[..n], x);
      if i :| 0 <= i < n && outs[..n][i].Renames? && outs[..n][i].choice.now == x { assert outs[i].choice.now == x; }
      if i :| 0 <= i < |outs| && outs[i].Renames? && outs[i].choice.now == x {
        if i < n { assert outs[..n][i].choice.now == x; }
      }
    }
  }

  lemma {:induction false} MapHas(outs: seq<Outcome>, imports: seq<string>, k: string)
    requires AllNamed(outs, imports) && Plain(k)
    ensures k in MapOf(outs) <==> exists i :: 0 <= i < |outs| && outs[i].Renames? && outs[i].choice.was == k
  {
    if outs != [] {
      var n := |outs| - 1;
      MapHas(outs[..n], imports, k);
      if i :| 0 <= i < n && outs[..n][i].Renames? && outs[..n][i].choice.was == k { assert outs[i].choice.was == k; }
      if i :| 0 <= i < |outs| && outs[i].Renames? && outs[i].choice.was == k {
        if i < n { assert outs[..n][i].choice.was == k; }
      }
    }
  }

  lemma JoinsIff(outs: seq<Outcome>, imports: seq<string>, c: Choice)
    requires AllNamed(outs, imports) && Named(c, imports)
    ensures Joins(outs, Renames(c)) <==>
            forall i :: 0 <= i < |outs| && outs[i].Renames? ==>
              outs[i].choice.was != c.was && outs[i].choice.now != c.now
  {
    NowsAre(outs, c.now);
    MapHas(outs, imports, c.was);
    if c.was in MapOf(outs) {
      BareIsChosen(outs, imports, c.was);
      var now := Bare(MapOf(outs))[c.was];
      var i :| 0 <= i < |outs| && outs[i].Renames? && outs[i].choice.was == c.was && outs[i].choice.now == now;
    }
  }

  lemma {:induction false} AcceptsIff(outs: seq<Outcome>, imports: seq<string>)
    requires AllNamed(outs, imports)
    ensures Accepts(outs) <==> Compatible(outs)
  {
    if outs != [] {
      var n := |outs| - 1;
      var init := outs[..n];
      AcceptsIff(init, imports);
      assert forall i :: 0 <= i < n ==> init[i] == outs[i];
      if outs[n].Renames? { JoinsIff(init, imports, outs[n].choice); }
      if Compatible(init) && Joins(init, outs[n]) {
        forall i, j | 0 <= i < j < |outs| && outs[i].Renames? && outs[j].Renames?
          ensures outs[i].choice.was != outs[j].choice.was && outs[i].choice.now != outs[j].choice.now
        {
          assert outs[i] == init[i];
          if j < n { assert outs[j] == init[j]; }
        }
      }
    }
  }

  lemma {:induction false} OutcomesHave(dep: Dependent, modules: seq<Retained>, i: nat, j: nat)
    requires i < |modules| && j < |dep.imports|
    ensures OutcomeOf(dep, modules[i], dep.imports[j]) in Outcomes(dep, modules)
  {
    var n := |modules| - 1;
    if i < n {
      OutcomesHave(dep, modules[..n], i, j);
    } else {
      ModuleOutcomesAt(dep, modules[n], dep.imports, j);
    }
  }

  /** Every import is judged for every retained module, and nothing else is. */
  lemma OutcomesAre(dep: Dependent, modules: seq<Retained>, o: Outcome)
    ensures o in Outcomes(dep, modules) <==> OutcomeFrom(dep, modules, o)
  {
    if o in Outcomes(dep, modules) { EveryOutcomeFrom(dep, modules, o); }
    if OutcomeFrom(dep, modules, o) {
      var i, j :| 0 <= i < |modules| && 0 <= j < |dep.imports| && o == OutcomeOf(dep, modules[i], dep.imports[j]);
      OutcomesHave(dep, modules, i, j);
    }
  }

  /** What the derived map takes each name to. */
  predicate Takes(outs: seq<Outcome>, k: string, v: string) {
    exists i :: 0 <= i < |outs| && TakesBy(outs[i], k, v)
  }

  predicate TakesBy(o: Outcome, k: string, v: string) {
    o.Renames? && ((k == o.choice.imported && v == o.choice.target) || (k == o.choice.was && v == o.choice.now))
  }

  /** The import of a renaming ends in its old name. */
  predicate Traced(c: Choice) { Plain(c.was) && !Plain(c.imported) && Fragment(c.imported) == c.was }

  predicate AllTraced(outs: seq<Outcome>) {
    forall i :: 0 <= i < |outs| && outs[i].Renames? ==> Traced(outs[i].choice)
  }

  lemma TakesSnoc(outs: seq<Outcome>, k: string, v: string)
    requires outs != []
    ensures Takes(outs, k, v) <==> Takes(outs[..|outs| - 1], k, v) || TakesBy(outs[|outs| - 1], k, v)
  {
    var init := outs[..|outs| - 1];
    if i :| 0 <= i < |init| && TakesBy(init[i], k, v) { assert TakesBy(outs[i], k, v); }
    if i :| 0 <= i < |outs| && TakesBy(outs[i], k, v) {
      if i < |init| { assert TakesBy(init[i], k, v); }
    }
  }

  /** Renamings with different old names take no name in common. */
  lemma TakeApart(a: Outcome, b: Outcome, k: string, v: string, w: string)
    requires a.Renames? && b.Renames? && Traced(a.choice) && Traced(b.choice) && a.choice.was != b.choice.was
    ensures !(TakesBy(a, k, v) && TakesBy(b, k, w))
  {
  }

  lemma LastTakes(outs: seq<Outcome>, k: string, v: string)
    requires outs != [] && Compatible(outs) && AllTraced(outs)
    requires outs[|outs| - 1].Renames?
    requires k == outs[|outs| - 1].choice.imported || k == outs[|outs| - 1].choice.was
    ensures !Takes(outs[..|outs| - 1], k, v)
  {
    var n := |outs| - 1;
    var c := outs[n].choice;
    forall i | 0 <= i < n ensures !TakesBy(outs[i], k, v) {
      if outs[i].Renames? { TakeApart(outs[i], outs[n], k, v, if k == c.imported then c.target else c.now); }
    }
  }

  /** The map takes each import to its target and each old name to its new one, and nothing else anywhere. */
  lemma {:induction false} MapIs(outs: seq<Outcome>, k: string, v: string)
    requires Compatible(outs) && AllTraced(outs)
    ensures (k in MapOf(outs) && MapOf(outs)[k] == v) <==> Takes(outs, k, v)
  {
    if outs != [] {
      var n := |outs| - 1;
      var init := outs[..n];
      assert Compatible(init) && AllTraced(init) by {
        assert forall i :: 0 <= i < n ==> init[i] == outs[i];
      }
      MapIs(init, k, v);
      TakesSnoc(outs, k, v);
      if outs[n].Renames? && (k == outs[n].choice.imported || k == outs[n].choice.was) { LastTakes(outs, k, v); }
    }
  }

  lemma OutcomesTraced(dep: Dependent, modules: seq<Retained>)
    ensures AllTraced(Outcomes(dep, modules))
  {
    var outs := Outcomes(dep, modules);
    forall k | 0 <= k < |outs| && outs[k].Renames? ensures Traced(outs[k].choice) {
      EveryOutcomeFrom(dep, modules, outs[k]);
      var i, j :| 0 <= i < |modules| && 0 <= j < |dep.imports| && outs[k] == OutcomeOf(dep, modules[i], dep.imports[j]);
      RenamesIff(dep, modules[i], dep.imports[j], outs[k].choice);
      ConceptNameIsPlain(outs[k].choice.was);
      FragmentOf(modules[i].sourceBase, outs[k].choice.was);
      assert outs[k].choice.imported[|modules[i].sourceBase|] == '#';
    }
  }

  /** The derivation succeeds exactly when exported names are unique and the outcomes are compatible, and then it
      consists of the chosen renamings. */
  lemma DerivationIff(dep: Dependent, modules: seq<Retained>, k: string, v: string)
    ensures Derivation(dep, modules).Some? <==>
            UniqueNames(UsingNames(dep.rules)) && NamesUnique(modules) && Compatible(Outcomes(dep, modules))
    ensures Derivation(dep, modules).Some? ==>
              var r := Derivation(dep, modules).value;
              (k in r && r[k] == v) <==> Takes(Outcomes(dep, modules), k, v)
  {
    OutcomesNamed(dep, modules);
    AcceptsIff(Outcomes(dep, modules), dep.imports);
    if Derivation(dep, modules).Some? {
      OutcomesTraced(dep, modules);
      MapIs(Outcomes(dep, modules), k, v);
    }
  }
}

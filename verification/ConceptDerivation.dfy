/**
 Deriving the renamings of retired imported parameters, and rewriting the dependent module with them.
 */
module ConceptDerivation {
  import opened Common
  import opened ConceptFormula
  import opened ConceptParameters

  datatype Surface = Surface(kind: string, indexedBy: Option<string>, dtype: Option<string>, entity: Option<string>,
                             unit: Option<string>, period: Option<string>)

  /** A version of a parameter as written: its literal and date may be unreadable. */
  datatype RawVersion = RawVersion(literal: Option<real>, from: Option<Date>, hasTo: bool)

  datatype Rule = Rule(name: string, surface: Surface, versions: seq<RawVersion>)

  datatype DateField = Absent | Unreadable | On(date: Date)

  datatype UseVersion = UseVersion(formula: Option<string>, from: Option<Date>, to: DateField)

  /** The import that a proof atom of a rule names, as far as it names one. */
  datatype Atom = Atom(target: Option<string>, output: Option<string>)

  datatype UsingRule = UsingRule(name: string, versions: seq<UseVersion>, atoms: seq<Atom>)

  datatype Dependent = Dependent(imports: seq<string>, rules: seq<UsingRule>)

  datatype Retained = Retained(sourceBase: string, destinationBase: string, source: seq<Rule>, destination: seq<Rule>)

  predicate IsConceptName(s: string) {
    && s != [] && 'a' <= s[0] <= 'z'
    && forall i :: 0 <= i < |s| ==> 'a' <= s[i] <= 'z' || '0' <= s[i] <= '9' || s[i] == '_'
  }

  // ---------------------------------------------------------------- names

  /** No concept name is exported twice; other names are ignored. */
  predicate UniqueNames(names: seq<string>) {
    forall i, j :: 0 <= i < j < |names| && IsConceptName(names[i]) ==> names[i] != names[j]
  }

  method RulesByName(names: seq<string>) returns (ok: bool, known: set<string>)
    ensures ok <==> UniqueNames(names)
    ensures ok ==> forall n :: n in known <==> IsConceptName(n) && n in names
  {
    known := {};
    for i := 0 to |names|
      invariant UniqueNames(names[..i])
      invariant forall n :: n in known <==> IsConceptName(n) && n in names[..i]
    {
      assert names[..i + 1] == names[..i] + [names[i]];
      if IsConceptName(names[i]) {
        if names[i] in known {
          var k :| 0 <= k < i && names[..i][k] == names[i];
          assert !UniqueNames(names);
          return false, {};
        }
        known := known + {names[i]};
      }
    }
    assert names[..|names|] == names;
    ok := true;
  }

  function RuleNames(rules: seq<Rule>): seq<string> { seq(|rules|, i requires 0 <= i < |rules| => rules[i].name) }

  function UsingNames(rules: seq<UsingRule>): seq<string> { seq(|rules|, i requires 0 <= i < |rules| => rules[i].name) }

  function RuleOf(rules: seq<Rule>, name: string): (r: Option<Rule>)
    ensures r.None? <==> name !in RuleNames(rules)
    ensures r.Some? ==> r.value in rules && r.value.name == name
  {
    if rules == [] then None
    else
      var n := |rules| - 1;
      assert RuleNames(rules) == RuleNames(rules[..n]) + [rules[n].name];
      if rules[n].name == name then Some(rules[n]) else RuleOf(rules[..n], name)
  }

  /** What follows the last number sign, or all of it. */
  function Fragment(s: string): string {
    if s == [] || s[|s| - 1] == '#' then [] else Fragment(s[..|s| - 1]) + [s[|s| - 1]]
  }

  lemma {:induction false} FragmentOf(base: string, name: string)
    requires forall i :: 0 <= i < |name| ==> name[i] != '#'
    ensures Fragment(base + "#" + name) == name
  {
    var s := base + "#" + name;
    if name != [] {
      FragmentOf(base, name[..|name| - 1]);
      assert s[..|s| - 1] == base + "#" + name[..|name| - 1];
    }
  }

  function WithFragment(imports: seq<string>, name: string): seq<string> {
    if imports == [] then []
    else
      var n := |imports| - 1;
      WithFragment(imports[..n], name) + if Fragment(imports[n]) == name then [imports[n]] else []
  }

  // ---------------------------------------------------------------- where a concept is used

  predicate Uses(v: UseVersion, concept: string) { v.formula.Some? && FormulaMentions(v.formula.value, concept) }

  function LastDate(to: DateField): Date { if to.On? then to.date else MAX_DATE }

  predicate WellDated(v: UseVersion) { v.from.Some? && !v.to.Unreadable? && v.from.value <= LastDate(v.to) }

  function WindowOf(v: UseVersion): Window
    requires WellDated(v)
  {
    Window(v.from.value, LastDate(v.to))
  }

  /** The windows of some versions, if all of them are well dated; their order and repetition do not matter. */
  function VersionWindows(versions: seq<UseVersion>, concept: string): Option<seq<Window>> {
    if versions == [] then Some([])
    else
      var n := |versions| - 1;
      match VersionWindows(versions[..n], concept)
      case None => None
      case Some(ws) =>
        if !Uses(versions[n], concept) then Some(ws)
        else if WellDated(versions[n]) then Some(ws + [WindowOf(versions[n])]) else None
  }

  function AllVersions(rules: seq<UsingRule>): seq<UseVersion> {
    if rules == [] then [] else AllVersions(rules[..|rules| - 1]) + rules[|rules| - 1].versions
  }

  method DependentUseWindows(rules: seq<UsingRule>, concept: string) returns (r: Option<seq<Window>>)
    ensures r == VersionWindows(AllVersions(rules), concept)
  {
    var windows: seq<Window> := [];
    for i := 0 to |rules|
      invariant Some(windows) == VersionWindows(AllVersions(rules[..i]), concept)
    {
      assert rules[..i + 1][..i] == rules[..i];
      var more := AddWindows(AllVersions(rules[..i]), rules[i].versions, concept, windows);
      if more.None? {
        AllVersionsExtend(rules, i + 1);
        ghost var all, some := AllVersions(rules), AllVersions(rules[..i + 1]);
        assert all[..|some|] == some;
        WindowsFail(all, |some|, concept);
        return None;
      }
      windows := more.value;
    }
    assert rules[..|rules|] == rules;
    return Some(windows);
  }

  method AddWindows(ghost done: seq<UseVersion>, versions: seq<UseVersion>, concept: string, sofar: seq<Window>)
    returns (r: Option<seq<Window>>)
    requires VersionWindows(done, concept) == Some(sofar)
    ensures r == VersionWindows(done + versions, concept)
  {
    var windows := sofar;
    assert done + versions[..0] == done;
    for j := 0 to |versions|
      invariant Some(windows) == VersionWindows(done + versions[..j], concept)
    {
      ghost var here := done + versions[..j + 1];
      assert here[..|here| - 1] == done + versions[..j];
      if Uses(versions[j], concept) {
        if !WellDated(versions[j]) {
          assert (done + versions)[..|here|] == here;
          WindowsFail(done + versions, |here|, concept);
          return None;
        }
        windows := windows + [WindowOf(versions[j])];
      }
    }
    assert versions[..|versions|] == versions;
    return Some(windows);
  }

  lemma {:induction false} AllVersionsExtend(rules: seq<UsingRule>, n: nat)
    requires n <= |rules|
    ensures AllVersions(rules[..n]) <= AllVersions(rules)
  {
    if n < |rules| {
      var init := rules[..|rules| - 1];
      AllVersionsExtend(init, n);
      assert init[..n] == rules[..n];
    } else {
      assert rules[..n] == rules;
    }
  }

  lemma {:induction false} WindowsFail(versions: seq<UseVersion>, n: nat, concept: string)
    requires n <= |versions| && VersionWindows(versions[..n], concept).None?
    ensures VersionWindows(versions, concept).None?
  {
    if n < |versions| {
      var init := versions[..|versions| - 1];
      assert init[..n] == versions[..n];
      WindowsFail(init, n, concept);
    } else {
      assert versions[..n] == versions;
    }
  }

  /** The windows are not inverted and include that of every version that uses the concept. */
  lemma {:induction false} WindowsCover(versions: seq<UseVersion>, concept: string)
    requires VersionWindows(versions, concept).Some?
    ensures forall w :: w in VersionWindows(versions, concept).value ==> w.from <= w.to
    ensures forall i :: 0 <= i < |versions| && Uses(versions[i], concept) ==>
              WellDated(versions[i]) && WindowOf(versions[i]) in VersionWindows(versions, concept).value
  {
    if versions != [] { WindowsCover(versions[..|versions| - 1], concept); }
  }

  // ---------------------------------------------------------------- the versions of a parameter

  datatype Parsed = Readable(versions: seq<Version>) | UsesEffectiveTo | Unusable

  function ParsedFrom(raw: seq<RawVersion>): Parsed {
    if raw == [] then Readable([])
    else if raw[0].literal.None? || raw[0].from.None? then Unusable
    else if raw[0].hasTo then UsesEffectiveTo
    else match ParsedFrom(raw[1..])
      case Readable(rest) => Readable([Version(raw[0].from.value, None, raw[0].literal.value)] + rest)
      case other => other
  }

  predicate Ordered(versions: seq<Version>) {
    forall i, j :: 0 <= i < j < |versions| ==> versions[i].start <= versions[j].start
  }

  function ParsedVersions(rule: Rule): Parsed {
    if rule.surface.kind != "parameter" || rule.surface.indexedBy.Some? || rule.versions == [] then Unusable
    else match ParsedFrom(rule.versions)
      case Readable(versions) => if Ordered(versions) then Readable(versions) else Unusable
      case other => other
  }

  function Prepend(done: seq<Version>, p: Parsed): Parsed {
    match p
    case Readable(rest) => Readable(done + rest)
    case other => other
  }

  method ParameterVersions(rule: Rule) returns (p: Parsed)
    ensures p == ParsedVersions(rule)
  {
    if rule.surface.kind != "parameter" || rule.surface.indexedBy.Some? || rule.versions == [] { return Unusable; }
    var parsed: seq<Version> := [];
    var raw := rule.versions;
    assert raw[0..] == raw;
    for i := 0 to |raw|
      invariant ParsedFrom(raw) == Prepend(parsed, ParsedFrom(raw[i..]))
    {
      assert raw[i..][1..] == raw[i + 1..];
      if raw[i].literal.None? || raw[i].from.None? { return Unusable; }
      if raw[i].hasTo { return UsesEffectiveTo; }
      parsed := parsed + [Version(raw[i].from.value, None, raw[i].literal.value)];
    }
    assert raw[|raw|..] == [] && parsed + [] == parsed;
    return if Ordered(parsed) then Readable(parsed) else Unusable;
  }

  // ---------------------------------------------------------------- successors

  predicate AgreeOnAll(before: seq<Version>, after: seq<Version>, windows: seq<Window>) {
    forall k :: 0 <= k < |windows| ==> AgreeThroughout(before, after, windows[k])
  }

  /** The destination parameters of the same surface that agree with the old one on every use date. */
  function Candidates(destination: seq<Rule>, surface: Surface, before: seq<Version>, windows: seq<Window>):
    Option<seq<string>>
  {
    if destination == [] then Some([])
    else
      var n := |destination| - 1;
      match Candidates(destination[..n], surface, before, windows)
      case None => None
      case Some(names) =>
        var rule := destination[n];
        if !IsConceptName(rule.name) || rule.surface != surface then Some(names)
        else match ParsedVersions(rule)
          case UsesEffectiveTo => None
          case Unusable => Some(names)
          case Readable(after) => Some(if AgreeOnAll(before, after, windows) then names + [rule.name] else names)
  }

  method FindCandidates(destination: seq<Rule>, surface: Surface, before: seq<Version>, windows: seq<Window>)
    returns (r: Option<seq<string>>)
    requires forall k :: 0 <= k < |windows| ==> windows[k].from <= windows[k].to
    ensures r == Candidates(destination, surface, before, windows)
  {
    var names: seq<string> := [];
    for i := 0 to |destination|
      invariant Candidates(destination[..i], surface, before, windows) == Some(names)
    {
      assert destination[..i + 1][..i] == destination[..i];
      var rule := destination[i];
      if IsConceptName(rule.name) && rule.surface == surface {
        var parsed := ParameterVersions(rule);
        if parsed.UsesEffectiveTo? {
          CandidatesFail(destination, i + 1, surface, before, windows);
          return None;
        }
        if parsed.Readable? {
          var equal := ParametersEqualOverWindows(before, parsed.versions, windows);
          forall k | 0 <= k < |windows|
            ensures ProbesAgree(before, parsed.versions, windows[k]) <==>
                    AgreeThroughout(before, parsed.versions, windows[k])
          {
            ProbesAreExact(before, parsed.versions, windows[k]);
          }
          if equal { names := names + [rule.name]; }
        }
      }
    }
    assert destination[..|destination|] == destination;
    return Some(names);
  }

  lemma {:induction false} CandidatesFail(destination: seq<Rule>, n: nat, surface: Surface, before: seq<Version>,
                                          windows: seq<Window>)
    requires n <= |destination| && Candidates(destination[..n], surface, before, windows).None?
    ensures Candidates(destination, surface, before, windows).None?
  {
    if n < |destination| {
      var init := destination[..|destination| - 1];
      assert init[..n] == destination[..n];
      CandidatesFail(init, n, surface, before, windows);
    } else {
      assert destination[..n] == destination;
    }
  }

  predicate IsCandidate(rule: Rule, surface: Surface, before: seq<Version>, windows: seq<Window>) {
    && IsConceptName(rule.name) && rule.surface == surface
    && ParsedVersions(rule).Readable? && AgreeOnAll(before, ParsedVersions(rule).versions, windows)
  }

  /** A sole candidate is the name of exactly one rule that agrees, and of no other. */
  lemma {:induction false} CandidatesAre(destination: seq<Rule>, surface: Surface, before: seq<Version>,
                                         windows: seq<Window>)
    requires Candidates(destination, surface, before, windows).Some?
    ensures forall name :: name in Candidates(destination, surface, before, windows).value <==>
              exists i :: 0 <= i < |destination| && destination[i].name == name &&
                IsCandidate(destination[i], surface, before, windows)
  {
    if destination != [] {
      var n := |destination| - 1;
      CandidatesAre(destination[..n], surface, before, windows);
      forall name
        ensures name in Candidates(destination, surface, before, windows).value <==>
                exists i :: 0 <= i < |destination| && destination[i].name == name &&
                  IsCandidate(destination[i], surface, before, windows)
      {
        if i :| 0 <= i < n && destination[..n][i].name == name &&
                IsCandidate(destination[..n][i], surface, before, windows) {
          assert destination[i].name == name;
        }
        if i :| 0 <= i < |destination| && destination[i].name == name &&
                IsCandidate(destination[i], surface, before, windows) {
          if i < n { assert destination[..n][i] == destination[i]; }
        }
      }
    }
  }

  // ---------------------------------------------------------------- one import of one retained module

  datatype Choice = Choice(imported: string, was: string, target: string, now: string)

  datatype Outcome = Irrelevant | Refused | Renames(choice: Choice)

  predicate AlreadyImported(imports: seq<string>, name: string) {
    exists i :: 0 <= i < |imports| && Fragment(imports[i]) == name
  }

  /** The successor of a retired parameter, if it is determined. */
  function SuccessorOf(dep: Dependent, m: Retained, imported: string, was: string, rule: Rule): Outcome {
    match (VersionWindows(AllVersions(dep.rules), was), ParsedVersions(rule))
    case (Some(windows), Readable(before)) =>
      if windows == [] then Refused
      else
        (match Candidates(m.destination, rule.surface, before, windows)
         case None => Refused
         case Some(names) =>
           if |names| != 1 || AlreadyImported(dep.imports, names[0]) then Refused
           else Renames(Choice(imported, was, m.destinationBase + "#" + names[0], names[0])))
    case _ => Refused
  }

  function OutcomeOf(dep: Dependent, m: Retained, imported: string): Outcome {
    var prefix := m.sourceBase + "#";
    if !(prefix <= imported) then Irrelevant
    else
      var was := imported[|prefix|..];
      if !IsConceptName(was) || WithFragment(dep.imports, was) != [imported] || was in UsingNames(dep.rules)
      then Refused
      else if was in RuleNames(m.destination) then Irrelevant
      else match RuleOf(m.source, was)
        case None => Refused
        case Some(rule) => SuccessorOf(dep, m, imported, was, rule)
  }

  method ImportsWithFragment(imports: seq<string>, name: string) returns (r: seq<string>)
    ensures r == WithFragment(imports, name)
  {
    r := [];
    for i := 0 to |imports|
      invariant r == WithFragment(imports[..i], name)
    {
      assert imports[..i + 1][..i] == imports[..i];
      if Fragment(imports[i]) == name { r := r + [imports[i]]; }
    }
    assert imports[..|imports|] == imports;
  }

  lemma ConceptNameIsPlain(name: string)
    requires IsConceptName(name)
    ensures IsName(name) && forall i :: 0 <= i < |name| ==> name[i] != '#'
  {
  }

  lemma CandidateNames(destination: seq<Rule>, surface: Surface, before: seq<Version>, windows: seq<Window>,
                       name: string)
    requires Candidates(destination, surface, before, windows).Some?
    requires name in Candidates(destination, surface, before, windows).value
    ensures IsConceptName(name)
  {
    CandidatesAre(destination, surface, before, windows);
  }

  method FindSuccessor(dep: Dependent, m: Retained, imported: string, was: string, rule: Rule) returns (o: Outcome)
    ensures o == SuccessorOf(dep, m, imported, was, rule)
  {
    var windows := DependentUseWindows(dep.rules, was);
    if windows.None? || windows.value == [] { return Refused; }
    var before := ParameterVersions(rule);
    if !before.Readable? { return Refused; }
    WindowsCover(AllVersions(dep.rules), was);
    var names := FindCandidates(m.destination, rule.surface, before.versions, windows.value);
    if names.None? || |names.value| != 1 { return Refused; }
    var now := names.value[0];
    CandidateNames(m.destination, rule.surface, before.versions, windows.value, now);
    FragmentOf(m.destinationBase, now);
    var target := m.destinationBase + "#" + now;
    if exists i :: 0 <= i < |dep.imports| && (dep.imports[i] == target || Fragment(dep.imports[i]) == now) {
      assert AlreadyImported(dep.imports, now);
      return Refused;
    }
    return Renames(Choice(imported, was, target, now));
  }

  method OneImport(dep: Dependent, m: Retained, imported: string) returns (o: Outcome)
    ensures o == OutcomeOf(dep, m, imported)
  {
    var prefix := m.sourceBase + "#";
    if !(prefix <= imported) { return Irrelevant; }
    var was := imported[|prefix|..];
    if !IsConceptName(was) { return Refused; }
    var same := ImportsWithFragment(dep.imports, was);
    if same != [imported] || was in UsingNames(dep.rules) { return Refused; }
    if was in RuleNames(m.destination) { return Irrelevant; }
    var rule := RuleOf(m.source, was);
    if rule.None? { return Refused; }
    o := FindSuccessor(dep, m, imported, was, rule.value);
  }

  // ---------------------------------------------------------------- what a renaming means

  /** Both parameters have the same value on every date on which some version uses the concept. */
  predicate AgreeInUse(versions: seq<UseVersion>, concept: string, before: seq<Version>, after: seq<Version>) {
    forall i :: 0 <= i < |versions| && Uses(versions[i], concept) ==> AgreeWhileUsed(versions[i], before, after)
  }

  predicate AgreeWhileUsed(v: UseVersion, before: seq<Version>, after: seq<Version>) {
    WellDated(v) && AgreeThroughout(before, after, WindowOf(v))
  }

  lemma {:induction false} WindowsAreUses(versions: seq<UseVersion>, concept: string, before: seq<Version>,
                                          after: seq<Version>)
    requires VersionWindows(versions, concept).Some?
    ensures AgreeOnAll(before, after, VersionWindows(versions, concept).value) <==>
            AgreeInUse(versions, concept, before, after)
  {
    if versions != [] {
      var n := |versions| - 1;
      WindowsAreUses(versions[..n], concept, before, after);
      var some, all := VersionWindows(versions[..n], concept).value, VersionWindows(versions, concept).value;
      assert forall k :: 0 <= k < |some| ==> some[k] == all[k];
      assert forall i :: 0 <= i < n ==> versions[..n][i] == versions[i];
      if Uses(versions[n], concept) { assert all[|some|] == WindowOf(versions[n]); }
    }
  }

  predicate Equivalent(versions: seq<UseVersion>, was: string, before: Rule, after: Rule) {
    && before.surface == after.surface && IsConceptName(after.name)
    && ParsedVersions(before).Readable? && ParsedVersions(after).Readable?
    && AgreeInUse(versions, was, ParsedVersions(before).versions, ParsedVersions(after).versions)
  }

  /** What a derived renaming means: the retired parameter and its successor have the same surface and agree,
      with a value, on every date on which any version of the dependent uses the old name; no parameter of
      another name in the destination does; and the new name is not the name of any import. */
  predicate Justified(dep: Dependent, m: Retained, c: Choice) {
    && c.imported == m.sourceBase + "#" + c.was && c.target == m.destinationBase + "#" + c.now
    && IsConceptName(c.was) && IsConceptName(c.now) && c.was !in RuleNames(m.destination)
    && !AlreadyImported(dep.imports, c.now) && c.imported in dep.imports
    && RuleOf(m.source, c.was).Some? && ParsedVersions(RuleOf(m.source, c.was).value).Readable?
    && var before, versions := RuleOf(m.source, c.was).value, AllVersions(dep.rules);
       && (exists after :: after in m.destination && after.name == c.now && Equivalent(versions, c.was, before, after))
       && (forall after :: after in m.destination && Equivalent(versions, c.was, before, after) ==> after.name == c.now)
  }

  lemma CandidateIsEquivalent(dep: Dependent, was: string, before: Rule, after: Rule, windows: seq<Window>)
    requires VersionWindows(AllVersions(dep.rules), was) == Some(windows) && ParsedVersions(before).Readable?
    ensures IsCandidate(after, before.surface, ParsedVersions(before).versions, windows) <==>
            Equivalent(AllVersions(dep.rules), was, before, after)
  {
    if ParsedVersions(after).Readable? {
      WindowsAreUses(AllVersions(dep.rules), was, ParsedVersions(before).versions, ParsedVersions(after).versions);
    }
  }

  lemma {:induction false} FragmentImported(imports: seq<string>, name: string, x: string)
    requires x in WithFragment(imports, name)
    ensures x in imports
  {
    if x in WithFragment(imports[..|imports| - 1], name) { FragmentImported(imports[..|imports| - 1], name, x); }
  }

  /** Every renaming the derivation chooses is justified. */
  lemma RenamingIsJustified(dep: Dependent, m: Retained, imported: string)
    requires OutcomeOf(dep, m, imported).Renames?
    ensures Justified(dep, m, OutcomeOf(dep, m, imported).choice)
  {
    var c := OutcomeOf(dep, m, imported).choice;
    var before, windows := RuleOf(m.source, c.was).value, VersionWindows(AllVersions(dep.rules), c.was).value;
    var names := Candidates(m.destination, before.surface, ParsedVersions(before).versions, windows).value;
    assert imported in WithFragment(dep.imports, c.was);
    FragmentImported(dep.imports, c.was, imported);
    CandidatesAre(m.destination, before.surface, ParsedVersions(before).versions, windows);
    forall after: Rule
      ensures IsCandidate(after, before.surface, ParsedVersions(before).versions, windows) <==>
              Equivalent(AllVersions(dep.rules), c.was, before, after)
    {
      CandidateIsEquivalent(dep, c.was, before, after, windows);
    }
    assert names == [c.now];
    assert c.now in names;
    forall after | after in m.destination && Equivalent(AllVersions(dep.rules), c.was, before, after)
      ensures after.name == c.now
    {
      assert after.name in names;
    }
  }
}

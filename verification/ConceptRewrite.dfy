/** The whole derivation over all retained modules, and what rewriting the dependent with it preserves. */
module ConceptRewrite {
  import opened Common
  import opened ConceptFormula
  import opened ConceptRenaming
  import opened ConceptParameters
  import opened ConceptDerivation

  /** The outcomes of all imports for one retained module. */
  function ModuleOutcomes(dep: Dependent, m: Retained, imports: seq<string>): seq<Outcome> {
    if imports == [] then []
    else ModuleOutcomes(dep, m, imports[..|imports| - 1]) + [OutcomeOf(dep, m, imports[|imports| - 1])]
  }

  function Outcomes(dep: Dependent, modules: seq<Retained>): seq<Outcome> {
    if modules == [] then []
    else Outcomes(dep, modules[..|modules| - 1]) + ModuleOutcomes(dep, modules[|modules| - 1], dep.imports)
  }

  /** The new names chosen so far. */
  function Nows(outs: seq<Outcome>): set<string> {
    if outs == [] then {}
    else match outs[|outs| - 1]
      case Renames(c) => Nows(outs[..|outs| - 1]) + {c.now}
      case _ => Nows(outs[..|outs| - 1])
  }

  function Extend(r: map<string, string>, c: Choice): map<string, string> { r[c.imported := c.target][c.was := c.now] }

  function MapOf(outs: seq<Outcome>): map<string, string> {
    if outs == [] then map[]
    else match outs[|outs| - 1]
      case Renames(c) => Extend(MapOf(outs[..|outs| - 1]), c)
      case _ => MapOf(outs[..|outs| - 1])
  }

  predicate Collides(r: map<string, string>, nows: set<string>, c: Choice) {
    (c.was in r && r[c.was] != c.now) || c.now in nows
  }

  predicate Joins(outs: seq<Outcome>, o: Outcome) {
    match o
    case Renames(c) => !Collides(MapOf(outs), Nows(outs), c)
    case Refused => false
    case Irrelevant => true
  }

  predicate Accepts(outs: seq<Outcome>) {
    outs == [] || (Accepts(outs[..|outs| - 1]) && Joins(outs[..|outs| - 1], outs[|outs| - 1]))
  }

  predicate NamesUnique(modules: seq<Retained>) {
    forall i :: 0 <= i < |modules| ==>
      UniqueNames(RuleNames(modules[i].source)) && UniqueNames(RuleNames(modules[i].destination))
  }

  function Derivation(dep: Dependent, modules: seq<Retained>): Option<map<string, string>> {
    if UniqueNames(UsingNames(dep.rules)) && NamesUnique(modules) && Accepts(Outcomes(dep, modules))
    then Some(MapOf(Outcomes(dep, modules))) else None
  }

  // ---------------------------------------------------------------- the loops

  lemma {:induction false} AcceptsEarlier(outs: seq<Outcome>, n: nat)
    requires n <= |outs| && Accepts(outs)
    ensures Accepts(outs[..n])
  {
    if n < |outs| {
      assert outs[..|outs| - 1][..n] == outs[..n];
      AcceptsEarlier(outs[..|outs| - 1], n);
    } else {
      assert outs[..n] == outs;
    }
  }

  lemma AcceptsPrefix(outs: seq<Outcome>, some: seq<Outcome>)
    requires some <= outs
    ensures Accepts(outs) ==> Accepts(some)
  {
    assert outs[..|some|] == some;
    if Accepts(outs) { AcceptsEarlier(outs, |some|); }
  }

  lemma {:induction false} ModuleOutcomesAt(dep: Dependent, m: Retained, imports: seq<string>, j: nat)
    ensures |ModuleOutcomes(dep, m, imports)| == |imports|
    ensures j < |imports| ==> ModuleOutcomes(dep, m, imports)[j] == OutcomeOf(dep, m, imports[j])
  {
    if imports != [] { ModuleOutcomesAt(dep, m, imports[..|imports| - 1], j); }
  }

  lemma {:induction false} OutcomesExtend(dep: Dependent, modules: seq<Retained>, n: nat)
    requires n <= |modules|
    ensures Outcomes(dep, modules[..n]) <= Outcomes(dep, modules)
  {
    if n < |modules| {
      assert modules[..|modules| - 1][..n] == modules[..n];
      OutcomesExtend(dep, modules[..|modules| - 1], n);
    } else {
      assert modules[..n] == modules;
    }
  }

  /** Records one outcome, unless it is refused or collides. */
  method Record(ghost outs: seq<Outcome>, o: Outcome, replacementsIn: map<string, string>, nowsIn: set<string>)
    returns (ok: bool, replacements: map<string, string>, nows: set<string>)
    requires Accepts(outs) && replacementsIn == MapOf(outs) && nowsIn == Nows(outs)
    ensures ok <==> Accepts(outs + [o])
    ensures ok ==> replacements == MapOf(outs + [o]) && nows == Nows(outs + [o])
  {
    assert (outs + [o])[..|outs|] == outs;
    replacements, nows := replacementsIn, nowsIn;
    if o.Refused? { return false, map[], {}; }
    if o.Renames? {
      if Collides(replacements, nows, o.choice) { return false, map[], {}; }
      nows := nows + {o.choice.now};
      replacements := Extend(replacements, o.choice);
    }
    ok := true;
  }

  method DeriveFromModule(dep: Dependent, m: Retained, ghost done: seq<Outcome>, replacementsIn: map<string, string>,
                          nowsIn: set<string>)
    returns (ok: bool, replacements: map<string, string>, nows: set<string>)
    requires Accepts(done) && replacementsIn == MapOf(done) && nowsIn == Nows(done)
    ensures var outs := done + ModuleOutcomes(dep, m, dep.imports);
            && (ok <==> Accepts(outs))
            && (ok ==> replacements == MapOf(outs) && nows == Nows(outs))
  {
    replacements, nows := replacementsIn, nowsIn;
    ghost var outs := ModuleOutcomes(dep, m, dep.imports);
    ModuleOutcomesAt(dep, m, dep.imports, 0);
    assert done + outs[..0] == done;
    for j := 0 to |dep.imports|
      invariant Accepts(done + outs[..j]) && replacements == MapOf(done + outs[..j]) && nows == Nows(done + outs[..j])
    {
      ok, replacements, nows := DeriveFromImport(dep, m, j, outs, done + outs[..j], replacements, nows);
      assert done + outs[..j] + [outs[j]] == done + outs[..j + 1];
      if !ok {
        AcceptsPrefix(done + outs, done + outs[..j + 1]);
        return false, map[], {};
      }
    }
    assert outs[..|dep.imports|] == outs;
    ok := true;
  }

  method DeriveFromImport(dep: Dependent, m: Retained, j: nat, ghost outs: seq<Outcome>, ghost here: seq<Outcome>,
                          replacementsIn: map<string, string>, nowsIn: set<string>)
    returns (ok: bool, replacements: map<string, string>, nows: set<string>)
    requires j < |dep.imports| == |outs| && outs == ModuleOutcomes(dep, m, dep.imports)
    requires Accepts(here) && replacementsIn == MapOf(here) && nowsIn == Nows(here)
    ensures ok <==> Accepts(here + [outs[j]])
    ensures ok ==> replacements == MapOf(here + [outs[j]]) && nows == Nows(here + [outs[j]])
  {
    var o := OneImport(dep, m, dep.imports[j]);
    ModuleOutcomesAt(dep, m, dep.imports, j);
    ok, replacements, nows := Record(here, o, replacementsIn, nowsIn);
  }

  method DeriveReplacements(dep: Dependent, modules: seq<Retained>) returns (r: Option<map<string, string>>)
    ensures r == Derivation(dep, modules)
  {
    var unique, _ := RulesByName(UsingNames(dep.rules));
    if !unique { return None; }
    var replacements: map<string, string>, nows: set<string> := map[], {};
    for i := 0 to |modules|
      invariant NamesUnique(modules[..i])
      invariant var outs := Outcomes(dep, modules[..i]);
                Accepts(outs) && replacements == MapOf(outs) && nows == Nows(outs)
    {
      assert modules[..i + 1][..i] == modules[..i];
      var sourceUnique, _ := RulesByName(RuleNames(modules[i].source));
      if !sourceUnique { return None; }
      var destinationUnique, _ := RulesByName(RuleNames(modules[i].destination));
      if !destinationUnique { return None; }
      ghost var done := Outcomes(dep, modules[..i]);
      var ok;
      ok, replacements, nows := DeriveFromModule(dep, modules[i], done, replacements, nows);
      if !ok {
        OutcomesExtend(dep, modules, i + 1);
        AcceptsPrefix(Outcomes(dep, modules), Outcomes(dep, modules[..i + 1]));
        return None;
      }
    }
    assert modules[..|modules|] == modules;
    return Some(replacements);
  }

  // ---------------------------------------------------------------- the derived map

  predicate Plain(s: string) { forall i :: 0 <= i < |s| ==> s[i] != '#' }

  /** The bare part of the replacements: keys without a number sign. */
  function Bare(r: map<string, string>): map<string, string> { map k | k in r && Plain(k) :: r[k] }

  /** A choice between concept names, by an import whose name is not free for a new one. */
  predicate Named(c: Choice, imports: seq<string>) {
    && IsName(c.was) && IsName(c.now) && Plain(c.was) && !Plain(c.imported)
    && AlreadyImported(imports, c.was) && !AlreadyImported(imports, c.now)
  }

  lemma ChoiceNames(dep: Dependent, m: Retained, imported: string)
    requires OutcomeOf(dep, m, imported).Renames?
    ensures Named(OutcomeOf(dep, m, imported).choice, dep.imports)
  {
    RenamingIsJustified(dep, m, imported);
    var c := OutcomeOf(dep, m, imported).choice;
    ConceptNameIsPlain(c.was);
    ConceptNameIsPlain(c.now);
    assert c.imported[|m.sourceBase|] == '#';
    FragmentOf(m.sourceBase, c.was);
    var i :| 0 <= i < |dep.imports| && dep.imports[i] == c.imported;
    assert Fragment(dep.imports[i]) == c.was;
  }

  predicate Injective(b: map<string, string>) { forall j, k :: j in b && k in b && b[j] == b[k] ==> j == k }

  predicate AllNamed(outs: seq<Outcome>, imports: seq<string>) {
    forall i :: 0 <= i < |outs| && outs[i].Renames? ==> Named(outs[i].choice, imports)
  }

  /** A chosen renaming of `was` to `now`. */
  predicate Chosen(outs: seq<Outcome>, was: string, now: string) {
    exists i :: 0 <= i < |outs| && outs[i].Renames? && outs[i].choice.was == was && outs[i].choice.now == now
  }

  lemma BareExtend(r: map<string, string>, c: Choice, imports: seq<string>)
    requires Named(c, imports)
    ensures Bare(Extend(r, c)) == Bare(r)[c.was := c.now]
  {
  }

  /** No two bare names have the same new name, which is one of those chosen. */
  lemma {:induction false} BareIsInjective(outs: seq<Outcome>, imports: seq<string>)
    requires Accepts(outs) && AllNamed(outs, imports)
    ensures Injective(Bare(MapOf(outs)))
    ensures forall k :: k in Bare(MapOf(outs)) ==> Bare(MapOf(outs))[k] in Nows(outs)
  {
    if outs != [] {
      var n := |outs| - 1;
      BareIsInjective(outs[..n], imports);
      if outs[n].Renames? { BareExtend(MapOf(outs[..n]), outs[n].choice, imports); }
    }
  }

  lemma {:induction false} BareIsChosen(outs: seq<Outcome>, imports: seq<string>, k: string)
    requires AllNamed(outs, imports) && k in Bare(MapOf(outs))
    ensures Chosen(outs, k, Bare(MapOf(outs))[k])
  {
    if outs != [] {
      var n := |outs| - 1;
      if outs[n].Renames? { BareExtend(MapOf(outs[..n]), outs[n].choice, imports); }
      if outs[n].Renames? && outs[n].choice.was == k {
        assert outs[n].choice.now == Bare(MapOf(outs))[k];
      } else {
        BareIsChosen(outs[..n], imports, k);
        var i :| 0 <= i < n && outs[..n][i].Renames? && outs[..n][i].choice.was == k &&
                 outs[..n][i].choice.now == Bare(MapOf(outs))[k];
        assert outs[i].choice.was == k;
      }
    }
  }

  /** An outcome is that of some import for some retained module. */
  predicate OutcomeFrom(dep: Dependent, modules: seq<Retained>, o: Outcome) {
    exists i, j :: 0 <= i < |modules| && 0 <= j < |dep.imports| && o == OutcomeOf(dep, modules[i], dep.imports[j])
  }

  lemma ModuleOutcomeFrom(dep: Dependent, m: Retained, o: Outcome)
    requires o in ModuleOutcomes(dep, m, dep.imports)
    ensures exists j :: 0 <= j < |dep.imports| && o == OutcomeOf(dep, m, dep.imports[j])
  {
    var outs := ModuleOutcomes(dep, m, dep.imports);
    var j: nat :| j < |outs| && outs[j] == o;
    ModuleOutcomesAt(dep, m, dep.imports, j);
  }

  lemma {:induction false} EveryOutcomeFrom(dep: Dependent, modules: seq<Retained>, o: Outcome)
    requires o in Outcomes(dep, modules)
    ensures OutcomeFrom(dep, modules, o)
  {
    var n := |modules| - 1;
    if o in Outcomes(dep, modules[..n]) {
      EveryOutcomeFrom(dep, modules[..n], o);
      var i, j :| 0 <= i < n && 0 <= j < |dep.imports| && o == OutcomeOf(dep, modules[..n][i], dep.imports[j]);
      assert modules[..n][i] == modules[i];
    } else {
      ModuleOutcomeFrom(dep, modules[n], o);
    }
  }

  lemma OutcomesNamed(dep: Dependent, modules: seq<Retained>)
    ensures AllNamed(Outcomes(dep, modules), dep.imports)
  {
    var outs := Outcomes(dep, modules);
    forall k | 0 <= k < |outs| && outs[k].Renames? ensures Named(outs[k].choice, dep.imports) {
      EveryOutcomeFrom(dep, modules, outs[k]);
      var i, j :| 0 <= i < |modules| && 0 <= j < |dep.imports| && outs[k] == OutcomeOf(dep, modules[i], dep.imports[j]);
      ChoiceNames(dep, modules[i], dep.imports[j]);
    }
  }

  /** The derived bare renamings are injective and no new name is an old one, so their order does not matter. */
  lemma DerivedIsSound(dep: Dependent, modules: seq<Retained>)
    requires Derivation(dep, modules).Some?
    ensures Sound(Bare(Derivation(dep, modules).value))
  {
    var outs := Outcomes(dep, modules);
    var b := Bare(MapOf(outs));
    OutcomesNamed(dep, modules);
    BareIsInjective(outs, dep.imports);
    forall k | k in b
      ensures IsName(k) && IsName(b[k]) && AlreadyImported(dep.imports, k) && !AlreadyImported(dep.imports, b[k])
    {
      BareIsChosen(outs, dep.imports, k);
    }
  }

  /** On date `d` the name has the value of each readable parameter of that name among the rules. */
  predicate ReadsFrom(rules: seq<Rule>, name: string, d: Date, env: string -> Option<real>) {
    forall i :: 0 <= i < |rules| && rules[i].name == name && ParsedVersions(rules[i]).Readable? ==>
      env(name) == Active(ParsedVersions(rules[i]).versions, d)
  }

  /** On date `d` the names read the parameters of the retained modules: old names those of the source,
      new names those of the destination. */
  ghost predicate Reads(modules: seq<Retained>, r: map<string, string>, d: Date,
                        before: string -> Option<real>, after: string -> Option<real>)
  {
    && (forall m, was :: m in modules && was in Bare(r) && m.sourceBase + "#" + was in r ==>
          ReadsFrom(m.source, was, d, before) && ReadsFrom(m.destination, r[was], d, after))
    && (forall w :: w !in Bare(r) && w !in Bare(r).Values ==> before(w) == after(w))
  }

  lemma {:induction false} ChosenIsMapped(outs: seq<Outcome>, i: nat)
    requires i < |outs| && outs[i].Renames?
    ensures outs[i].choice.imported in MapOf(outs)
  {
    var n := |outs| - 1;
    if i < n { ChosenIsMapped(outs[..n], i); }
  }

  /** The retained module behind a bare renaming. */
  lemma OriginOf(dep: Dependent, modules: seq<Retained>, k: string) returns (m: Retained, c: Choice)
    requires Derivation(dep, modules).Some? && k in Bare(Derivation(dep, modules).value)
    ensures m in modules && Justified(dep, m, c) && c.was == k && c.now == Derivation(dep, modules).value[k]
    ensures m.sourceBase + "#" + k in Derivation(dep, modules).value
  {
    var outs := Outcomes(dep, modules);
    OutcomesNamed(dep, modules);
    BareIsChosen(outs, dep.imports, k);
    var l :| 0 <= l < |outs| && outs[l].Renames? && outs[l].choice.was == k && outs[l].choice.now == MapOf(outs)[k];
    ChosenIsMapped(outs, l);
    EveryOutcomeFrom(dep, modules, outs[l]);
    var i, j :| 0 <= i < |modules| && 0 <= j < |dep.imports| && outs[l] == OutcomeOf(dep, modules[i], dep.imports[j]);
    RenamingIsJustified(dep, modules[i], dep.imports[j]);
    m, c := modules[i], outs[l].choice;
  }

  lemma ValueIsCarried(dep: Dependent, modules: seq<Retained>, v: UseVersion, d: Date, k: string,
                       before: string -> Option<real>, after: string -> Option<real>)
    requires Derivation(dep, modules).Some? && v in AllVersions(dep.rules)
    requires var r := Derivation(dep, modules).value; k in Bare(r) && Reads(modules, r, d, before, after)
    requires Uses(v, k) && (WellDated(v) ==> WindowOf(v).Has(d))
    ensures before(k).Some? && after(Derivation(dep, modules).value[k]) == before(k)
  {
    var m, c := OriginOf(dep, modules, k);
    assert ReadsFrom(m.source, c.was, d, before) && ReadsFrom(m.destination, c.now, d, after);
    var was := RuleOf(m.source, k).value;
    var now :| now in m.destination && now.name == c.now && Equivalent(AllVersions(dep.rules), k, was, now);
    assert AgreeWhileUsed(v, ParsedVersions(was).versions, ParsedVersions(now).versions);
    assert Agree(ParsedVersions(was).versions, ParsedVersions(now).versions, d);
  }

  /** Rewriting a formula with the derived renamings, in any order, keeps its meaning on every date of the
      version's period, provided the formula did not already use a new name. */
  lemma DerivedRewriteKeepsMeaning(dep: Dependent, modules: seq<Retained>, v: UseVersion, d: Date, names: seq<string>,
                                   before: string -> Option<real>, after: string -> Option<real>)
    requires Derivation(dep, modules).Some? && v in AllVersions(dep.rules) && v.formula.Some?
    requires WellDated(v) ==> WindowOf(v).Has(d)
    requires var r := Derivation(dep, modules).value;
             Reads(modules, r, d, before, after) && Lists(names, Bare(r)) && !MentionsNew(v.formula.value, Bare(r))
    ensures Sound(Bare(Derivation(dep, modules).value))
    ensures Meaning(ReplaceAll(v.formula.value, Bare(Derivation(dep, modules).value), names), after) ==
            Meaning(v.formula.value, before)
  {
    var b, f := Bare(Derivation(dep, modules).value), v.formula.value;
    DerivedIsSound(dep, modules);
    forall k | k in b && FormulaMentions(f, k) ensures after(b[k]) == before(k) {
      ValueIsCarried(dep, modules, v, d, k, before, after);
    }
    ReplacingKeepsMeaning(f, b, names, before, after);
  }

  // ---------------------------------------------------------------- the expected rewritten module

  predicate Iterates(names: seq<string>, m: map<string, string>) {
    forall i :: 0 <= i < |names| ==> names[i] in m && names[i] != []
  }

  /** The formula loop over the bare renamings, in the order of the dictionary. */
  method ReplaceInFormula(formula: string, bare: map<string, string>, names: seq<string>) returns (r: string)
    requires Iterates(names, bare)
    ensures r == ReplaceAll(formula, bare, names)
  {
    r := formula;
    assert names[0..] == names;
    for i := 0 to |names|
      invariant ReplaceAll(formula, bare, names) == ReplaceAll(r, bare, names[i..])
    {
      assert names[i..][1..] == names[i + 1..];
      r := ReplaceIdentifier(r, names[i], bare[names[i]]);
    }
  }

  function Rewritten(v: UseVersion, bare: map<string, string>, names: seq<string>): UseVersion
    requires Iterates(names, bare)
  {
    if v.formula.None? then v else v.(formula := Some(ReplaceAll(v.formula.value, bare, names)))
  }

  method RewriteVersions(versions: seq<UseVersion>, bare: map<string, string>, names: seq<string>)
    returns (r: seq<UseVersion>)
    requires Iterates(names, bare)
    ensures |r| == |versions|
    ensures forall j :: 0 <= j < |versions| ==> r[j] == Rewritten(versions[j], bare, names)
  {
    r := [];
    for j := 0 to |versions|
      invariant |r| == j && forall k :: 0 <= k < j ==> r[k] == Rewritten(versions[k], bare, names)
    {
      var v := versions[j];
      if v.formula.Some? {
        var formula := ReplaceInFormula(v.formula.value, bare, names);
        v := v.(formula := Some(formula));
      }
      r := r + [v];
    }
  }

  function RewrittenImport(item: string, r: map<string, string>): string {
    if item in r && !Plain(item) then r[item] else item
  }

  function RewrittenAtom(x: Atom, r: map<string, string>): Atom {
    Atom(if x.target.Some? && x.target.value in r && !Plain(x.target.value) then Some(r[x.target.value]) else x.target,
         if x.output.Some? && x.output.value in r && Plain(x.output.value) then Some(r[x.output.value]) else x.output)
  }

  method RewriteAtoms(atoms: seq<Atom>, r: map<string, string>) returns (rewritten: seq<Atom>)
    ensures |rewritten| == |atoms|
    ensures forall j :: 0 <= j < |atoms| ==> rewritten[j] == RewrittenAtom(atoms[j], r)
  {
    var full := map k | k in r && !Plain(k) :: r[k];
    var bare := Bare(r);
    rewritten := [];
    for j := 0 to |atoms|
      invariant |rewritten| == j && forall k :: 0 <= k < j ==> rewritten[k] == RewrittenAtom(atoms[k], r)
    {
      var x := atoms[j];
      if x.target.Some? && x.target.value in full { x := x.(target := Some(full[x.target.value])); }
      if x.output.Some? && x.output.value in bare { x := x.(output := Some(bare[x.output.value])); }
      rewritten := rewritten + [x];
    }
  }

  /** The rule keeps its name; its formulas and proof atoms are rewritten one by one. */
  predicate RuleRewritten(rule: UsingRule, after: UsingRule, r: map<string, string>, names: seq<string>)
    requires Iterates(names, Bare(r))
  {
    && after.name == rule.name
    && |after.versions| == |rule.versions| && |after.atoms| == |rule.atoms|
    && (forall j :: 0 <= j < |rule.versions| ==> after.versions[j] == Rewritten(rule.versions[j], Bare(r), names))
    && (forall j :: 0 <= j < |rule.atoms| ==> after.atoms[j] == RewrittenAtom(rule.atoms[j], r))
  }

  /** The module expected after the rewriting: full references in imports and proof atoms, bare names in
      formulas and proof atoms, and nothing else, change. */
  method ExpectedPrimaryPayload(dep: Dependent, r: map<string, string>, names: seq<string>) returns (e: Dependent)
    requires Iterates(names, Bare(r))
    ensures |e.imports| == |dep.imports| && |e.rules| == |dep.rules|
    ensures forall i :: 0 <= i < |dep.imports| ==> e.imports[i] == RewrittenImport(dep.imports[i], r)
    ensures forall i :: 0 <= i < |dep.rules| ==> RuleRewritten(dep.rules[i], e.rules[i], r, names)
  {
    var full := map k | k in r && !Plain(k) :: r[k];
    var imports := seq(|dep.imports|, i requires 0 <= i < |dep.imports| =>
      if dep.imports[i] in full then full[dep.imports[i]] else dep.imports[i]);
    var rules: seq<UsingRule> := [];
    for i := 0 to |dep.rules|
      invariant |rules| == i && forall k :: 0 <= k < i ==> RuleRewritten(dep.rules[k], rules[k], r, names)
    {
      var versions := RewriteVersions(dep.rules[i].versions, Bare(r), names);
      var atoms := RewriteAtoms(dep.rules[i].atoms, r);
      rules := rules + [UsingRule(dep.rules[i].name, versions, atoms)];
    }
    return Dependent(imports, rules);
  }
}

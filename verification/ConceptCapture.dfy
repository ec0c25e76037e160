/**
 When rewriting with derived renamings changes what a formula means: exactly when the formula already uses
 one of the new names.
 */
module ConceptCapture {
  import opened Common
  import opened ConceptFormula
  import opened ConceptRenaming
  import opened ConceptParameters
  import opened ConceptDerivation
  import opened ConceptRewrite

  type Values = string -> Option<real>

  function Override(env: Values, name: string, value: Option<real>): Values {
    (w: string) => if w == name then value else env(w)
  }

  /** What a new name meant before is not read from any retained module. */
  lemma NewNameIsFree(modules: seq<Retained>, r: map<string, string>, d: Date, before: Values, after: Values, k: string,
                      value: Option<real>)
    requires Sound(Bare(r)) && Reads(modules, r, d, before, after) && k in Bare(r)
    ensures Reads(modules, r, d, Override(before, Bare(r)[k], value), after)
  {
    var b := Override(before, Bare(r)[k], value);
    forall m, was | m in modules && was in Bare(r) && m.sourceBase + "#" + was in r
      ensures ReadsFrom(m.source, was, d, b) && ReadsFrom(m.destination, r[was], d, after)
    {
      assert ReadsFrom(m.source, was, d, before);
      assert was != Bare(r)[k];
    }
  }

  function Other(value: Option<real>): (r: Option<real>)
    ensures r != value
  {
    if value.None? then Some(0.0) else None
  }

  lemma MeaningChanges(f: string, m: map<string, string>, names: seq<string>, k: string, before: Values, after: Values)
    requires Sound(m) && Lists(names, m) && k in m && FormulaMentions(f, m[k]) && before(m[k]) != after(m[k])
    ensures Meaning(ReplaceAll(f, m, names), after) != Meaning(f, before)
  {
    var g := ReplaceAll(f, m, names);
    assert Tokens(g) == MapWords(Tokens(f), AtOnce(m)) by { ReplaceAllIsSimultaneous(f, m, names); }
    MentionIsWord(f, m[k]);
    var i :| 0 <= i < |Tokens(f)| && Tokens(f)[i] == Word(m[k]);
    MapWordsAt(Tokens(f), AtOnce(m));
    assert Meaning(f, before)[i] == Denotes(before(m[k]));
    assert Meaning(g, after)[i] == Denotes(after(m[k]));
  }

  /** A formula that already uses a new name changes its meaning for some values of its own names, with the
      retained modules read as they are. */
  lemma DerivedRewriteCaptures(dep: Dependent, modules: seq<Retained>, f: string, d: Date, names: seq<string>,
                               before: Values, after: Values)
    requires Derivation(dep, modules).Some?
    requires var r := Derivation(dep, modules).value;
             Reads(modules, r, d, before, after) && Lists(names, Bare(r)) && MentionsNew(f, Bare(r))
    ensures Sound(Bare(Derivation(dep, modules).value))
    ensures exists own: Values ::
              && Reads(modules, Derivation(dep, modules).value, d, own, after)
              && Meaning(ReplaceAll(f, Bare(Derivation(dep, modules).value), names), after) != Meaning(f, own)
  {
    var r := Derivation(dep, modules).value;
    DerivedIsSound(dep, modules);
    var k :| k in Bare(r) && FormulaMentions(f, Bare(r)[k]);
    var now := Bare(r)[k];
    var own := Override(before, now, Other(after(now)));
    NewNameIsFree(modules, r, d, before, after, k, Other(after(now)));
    MeaningChanges(f, Bare(r), names, k, own, after);
  }

  /** The exact condition: on a date of its period, a formula keeps its meaning for all values of its own
      names if and only if it uses none of the new names. */
  lemma DerivedRewriteIsExact(dep: Dependent, modules: seq<Retained>, v: UseVersion, d: Date, names: seq<string>,
                              before: Values, after: Values)
    requires Derivation(dep, modules).Some? && v in AllVersions(dep.rules) && v.formula.Some?
    requires WellDated(v) ==> WindowOf(v).Has(d)
    requires var r := Derivation(dep, modules).value; Reads(modules, r, d, before, after) && Lists(names, Bare(r))
    ensures Sound(Bare(Derivation(dep, modules).value))
    ensures var r := Derivation(dep, modules).value;
            (forall own: Values :: Reads(modules, r, d, own, after) ==>
               Meaning(ReplaceAll(v.formula.value, Bare(r), names), after) == Meaning(v.formula.value, own)) <==>
            !MentionsNew(v.formula.value, Bare(r))
  {
    var r := Derivation(dep, modules).value;
    DerivedIsSound(dep, modules);
    if MentionsNew(v.formula.value, Bare(r)) {
      DerivedRewriteCaptures(dep, modules, v.formula.value, d, names, before, after);
    } else {
      forall own: Values | Reads(modules, r, d, own, after)
        ensures Meaning(ReplaceAll(v.formula.value, Bare(r), names), after) == Meaning(v.formula.value, own)
      {
        DerivedRewriteKeepsMeaning(dep, modules, v, d, names, own, after);
      }
    }
  }

  // ---------------------------------------------------------------- a new name that is already taken

  const SCALAR := Surface("parameter", None, None, None, None, None)
  const ALWAYS := RawVersion(Some(1.0), Some(1), false)

  /** A dependent with a rule `b` of its own, and a rule that uses both `b` and the imported `a`. */
  const TAKEN := Dependent(["s#a"], [UsingRule("b", [UseVersion(Some("1"), Some(1), Absent)], []),
                                     UsingRule("c", [UseVersion(Some("a b"), Some(1), Absent)], [])])

  /** The retained module renames `a` to `b`. */
  const SUCCEEDED := Retained("s", "d", [Rule("a", SCALAR, [ALWAYS])], [Rule("b", SCALAR, [ALWAYS])])

  lemma LetterSegments(c: char)
    requires IsId(c)
    ensures Segments([c]) == [Segment(true, [c])]
  {
    assert [c][1..] == [] && [c][..1] == [c];
    assert PlainLength([c]) == 1;
    assert Segments([c][1..]) == [];
  }

  lemma LetterMentions(c: char, d: char)
    requires IsId(c) && IsId(d)
    ensures FormulaMentions([c], [d]) <==> c == d
  {
    LetterSegments(c);
    MentionIsWord([c], [d]);
    assert [c][1..] == [] && [c][..1] == [c];
    assert RunLength([c]) == 1;
    assert Words([c]) == [Word([c])] + Words([]);
    assert AllTokens([Segment(true, [c])][1..]) == [];
    assert Tokens([c]) == [Word([c])];
  }

  lemma PairTokens()
    ensures Tokens("a b") == [Word("a"), Mark(' '), Word("b")]
  {
    assert "a b" + [] == "a b";
    PlainThen("a b", []);
    assert Segments("a b") == [Segment(true, "a b")];
    assert AllTokens([Segment(true, "a b")][1..]) == [];
    WordThen("b", "");
    MarkThen(' ', "b");
    WordThen("a", " b");
    assert "a" + " b" == "a b" && [' '] + "b" == " b" && "b" + "" == "b" && Words("") == [];
  }

  lemma PairMentions()
    ensures FormulaMentions("a b", "a") && FormulaMentions("a b", "b") && !FormulaMentions("1", "a")
  {
    PairTokens();
    MentionIsWord("a b", "a");
    MentionIsWord("a b", "b");
    LetterMentions('1', 'a');
    assert ['1'] == "1" && ['a'] == "a";
  }

  lemma OneUse(u: UseVersion, v: UseVersion, concept: string)
    requires Uses(v, concept) && WellDated(v) && !Uses(u, concept)
    ensures VersionWindows([u, v], concept) == Some([WindowOf(v)])
  {
    assert [u, v][..1] == [u] && [u][..0] == [];
    assert VersionWindows([u], concept) == Some([]);
    assert [] + [WindowOf(v)] == [WindowOf(v)];
  }

  lemma TakenVersions()
    ensures AllVersions(TAKEN.rules) == [TAKEN.rules[0].versions[0], TAKEN.rules[1].versions[0]]
  {
    assert TAKEN.rules[..1] == [TAKEN.rules[0]] && [TAKEN.rules[0]][..0] == [];
    assert AllVersions([TAKEN.rules[0]]) == [TAKEN.rules[0].versions[0]];
  }

  lemma TakenWindows()
    ensures VersionWindows(AllVersions(TAKEN.rules), "a") == Some([Window(1, MAX_DATE)])
  {
    PairMentions();
    TakenVersions();
    OneUse(TAKEN.rules[0].versions[0], TAKEN.rules[1].versions[0], "a");
    assert WindowOf(TAKEN.rules[1].versions[0]) == Window(1, MAX_DATE);
  }

  lemma OnlyImport(imported: string, name: string)
    requires Fragment(imported) == name
    ensures WithFragment([imported], name) == [imported]
  {
    assert [imported][..0] == [];
    assert WithFragment([], name) == [];
  }

  lemma TakenParses()
    ensures ParsedVersions(SUCCEEDED.source[0]) == ParsedVersions(SUCCEEDED.destination[0]) ==
            Readable([Version(1, None, 1.0)])
  {
    assert [ALWAYS][1..] == [];
    assert ParsedFrom([ALWAYS]) == Readable([Version(1, None, 1.0)]);
  }

  lemma TakenCandidates()
    ensures Candidates(SUCCEEDED.destination, SCALAR, [Version(1, None, 1.0)], [Window(1, MAX_DATE)]) == Some(["b"])
  {
    var vs, w := [Version(1, None, 1.0)], Window(1, MAX_DATE);
    TakenParses();
    forall d: Date | w.Has(d) ensures Agree(vs, vs, d) { assert vs[0].Covers(d); }
    assert AgreeOnAll(vs, vs, [w]);
    assert SUCCEEDED.destination[..0] == [];
    assert IsConceptName("b");
    assert Candidates([], SCALAR, vs, [w]) == Some([]);
    assert Candidates(SUCCEEDED.destination, SCALAR, vs, [w]) == Some([] + ["b"]);
    assert [] + ["b"] == ["b"];
  }

  lemma TakenSuccessor()
    requires !AlreadyImported(TAKEN.imports, "b")
    ensures SuccessorOf(TAKEN, SUCCEEDED, "s#a", "a", SUCCEEDED.source[0]) == Renames(Choice("s#a", "a", "d#b", "b"))
  {
    TakenWindows();
    TakenParses();
    TakenCandidates();
    assert "d" + "#" + "b" == "d#b";
  }

  lemma OutcomeIs(dep: Dependent, m: Retained, was: string, rule: Rule)
    requires IsConceptName(was) && WithFragment(dep.imports, was) == [m.sourceBase + "#" + was]
    requires was !in UsingNames(dep.rules) && was !in RuleNames(m.destination) && m.source == [rule] && rule.name == was
    ensures var imported := m.sourceBase + "#" + was;
            OutcomeOf(dep, m, imported) == SuccessorOf(dep, m, imported, was, rule)
  {
    var imported := m.sourceBase + "#" + was;
    assert imported[|m.sourceBase + "#"|..] == was;
  }

  lemma TakenImports()
    ensures WithFragment(TAKEN.imports, "a") == ["s" + "#" + "a"] && "s" + "#" + "a" == "s#a"
    ensures !AlreadyImported(TAKEN.imports, "b")
  {
    FragmentOf("s", "a");
    assert "s" + "#" + "a" == "s#a";
    OnlyImport("s#a", "a");
  }

  lemma TakenNames()
    ensures "a" !in UsingNames(TAKEN.rules) && "a" !in RuleNames(SUCCEEDED.destination)
  {
    assert UsingNames(TAKEN.rules) == ["b", "c"];
    assert RuleNames(SUCCEEDED.destination) == ["b"];
  }

  lemma TakenOutcome()
    ensures OutcomeOf(TAKEN, SUCCEEDED, "s#a") == Renames(Choice("s#a", "a", "d#b", "b"))
  {
    TakenImports();
    TakenNames();
    OutcomeIs(TAKEN, SUCCEEDED, "a", SUCCEEDED.source[0]);
    TakenSuccessor();
  }

  lemma OnlyOutcome(dep: Dependent, m: Retained, imported: string)
    requires dep.imports == [imported]
    ensures Outcomes(dep, [m]) == [OutcomeOf(dep, m, imported)]
  {
    assert [m][..0] == [] && dep.imports[..0] == [];
    assert ModuleOutcomes(dep, m, []) == [] && Outcomes(dep, []) == [];
  }

  lemma OnlyChoice(c: Choice)
    ensures Accepts([Renames(c)]) && MapOf([Renames(c)]) == map[c.imported := c.target][c.was := c.now]
  {
    assert [Renames(c)][..0] == [];
    assert MapOf([]) == map[] && Nows([]) == {};
    assert Joins([], Renames(c));
    assert Extend(map[], c) == map[c.imported := c.target][c.was := c.now];
  }

  lemma TakenUnique()
    ensures UniqueNames(UsingNames(TAKEN.rules)) && NamesUnique([SUCCEEDED])
  {
    assert UsingNames(TAKEN.rules) == ["b", "c"];
    assert RuleNames(SUCCEEDED.source) == ["a"] && RuleNames(SUCCEEDED.destination) == ["b"];
  }

  lemma DerivationIs(dep: Dependent, modules: seq<Retained>, c: Choice)
    requires UniqueNames(UsingNames(dep.rules)) && NamesUnique(modules) && Outcomes(dep, modules) == [Renames(c)]
    ensures Derivation(dep, modules) == Some(map[c.imported := c.target][c.was := c.now])
  {
    OnlyChoice(c);
  }

  const RENAMED: map<string, string> := map["s#a" := "d#b"]["a" := "b"]

  lemma TakenAccepted()
    ensures Derivation(TAKEN, [SUCCEEDED]) == Some(RENAMED)
  {
    TakenUnique();
    TakenOutcome();
    OnlyOutcome(TAKEN, SUCCEEDED, "s#a");
    DerivationIs(TAKEN, [SUCCEEDED], Choice("s#a", "a", "d#b", "b"));
  }

  lemma RenamedBare()
    ensures Bare(RENAMED) == map["a" := "b"] && Lists(["a"], Bare(RENAMED))
  {
    assert !Plain("s#a") by { assert "s#a"[1] == '#'; }
    assert Plain("a");
    assert ["a"][0] == "a";
  }

  /** Every name has the value of the two parameters. */
  function Ones(): Values { (w: string) => Some(1.0) }

  lemma OnesRead(name: string, d: Date)
    ensures ReadsFrom([Rule(name, SCALAR, [ALWAYS])], name, d, Ones())
  {
    var rule := Rule(name, SCALAR, [ALWAYS]);
    assert [ALWAYS][1..] == [];
    assert ParsedFrom([ALWAYS]) == Readable([Version(1, None, 1.0)]);
    assert ParsedVersions(rule) == Readable([Version(1, None, 1.0)]);
    assert Version(1, None, 1.0).Covers(d);
    assert Active([Version(1, None, 1.0)], d) == Some(1.0);
  }

  lemma TakenReads(d: Date)
    ensures Reads([SUCCEEDED], RENAMED, d, Ones(), Ones())
  {
    RenamedBare();
    OnesRead("a", d);
    OnesRead("b", d);
    assert RENAMED["a"] == "b";
  }

  lemma TakenMentionsNew()
    ensures MentionsNew("a b", Bare(RENAMED))
  {
    RenamedBare();
    PairMentions();
    assert Bare(RENAMED)["a"] == "b";
  }

  /** The derivation accepts a successor that the dependent already uses for a rule of its own; rewriting
      the formula of the dependent that uses both then changes its meaning, on any date. */
  lemma DerivationCanCapture(d: Date)
    ensures Derivation(TAKEN, [SUCCEEDED]) == Some(RENAMED)
    ensures TAKEN.rules[1].versions[0].formula == Some("a b")
    ensures Sound(Bare(RENAMED)) && Lists(["a"], Bare(RENAMED))
    ensures exists before: Values, after: Values ::
              && Reads([SUCCEEDED], RENAMED, d, before, after)
              && Meaning(ReplaceAll("a b", Bare(RENAMED), ["a"]), after) != Meaning("a b", before)
  {
    TakenAccepted();
    TakenReads(d);
    RenamedBare();
    TakenMentionsNew();
    DerivedRewriteCaptures(TAKEN, [SUCCEEDED], "a b", d, ["a"], Ones(), Ones());
  }
}

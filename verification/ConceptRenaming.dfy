/** What the quote-aware renaming does to a formula, in terms of its tokens. */
module ConceptRenaming {
  import opened Common
  import opened ConceptFormula

  // ---------------------------------------------------------------- one plain segment

  lemma {:induction false} RunIsId(s: string)
    ensures AllId(s[..RunLength(s)]) && !StartsId(s[RunLength(s)..])
  {
    if StartsId(s) {
      RunIsId(s[1..]);
      assert s[RunLength(s)..] == s[1..][RunLength(s[1..])..];
      assert s[..RunLength(s)] == [s[0]] + s[1..][..RunLength(s[1..])];
    }
  }

  /** A run of identifier characters that no further one follows is the run at the front. */
  lemma {:induction false} RunOf(w: string, rest: string)
    requires AllId(w) && !StartsId(rest)
    ensures RunLength(w + rest) == |w|
  {
    if w == [] {
      assert w + rest == rest;
    } else {
      RunOf(w[1..], rest);
      assert (w + rest)[1..] == w[1..] + rest;
    }
  }

  lemma WordThen(w: string, rest: string)
    requires IsName(w) && !StartsId(rest)
    ensures Words(w + rest) == [Word(w)] + Words(rest)
  {
    RunOf(w, rest);
    assert (w + rest)[..|w|] == w && (w + rest)[|w|..] == rest;
  }

  lemma MarkThen(c: char, rest: string)
    requires !IsId(c)
    ensures Words([c] + rest) == [Mark(c)] + Words(rest)
  {
    assert ([c] + rest)[1..] == rest;
  }

  /** The pattern matches at the front of a run exactly when the run is the name. */
  lemma MatchIsRun(s: string, name: string)
    requires IsName(name)
    ensures MatchesHere(s, false, name) <==> s[..RunLength(s)] == name
  {
    RunIsId(s);
    if MatchesHere(s, false, name) {
      RunOf(name, s[|name|..]);
      assert s == name + s[|name|..];
    }
  }

  lemma MatchStartsId(s: string, name: string)
    requires IsName(name)
    ensures MatchesHere(s, false, name) ==> StartsId(s)
  {
    if name <= s { assert s[0] == name[0]; }
  }

  lemma SubstituteAfterRun(s: string, was: string, now: string)
    requires IsName(was) && !StartsId(s)
    ensures Substitute(s, true, was, now) == Substitute(s, false, was, now)
    ensures !StartsId(Substitute(s, false, was, now))
  {
    MatchStartsId(s, was);
  }

  lemma {:induction false} SubstituteInsideRun(s: string, was: string, now: string)
    requires IsName(was)
    ensures Substitute(s, true, was, now) == s[..RunLength(s)] + Substitute(s[RunLength(s)..], false, was, now)
  {
    if StartsId(s) {
      SubstituteInsideRun(s[1..], was, now);
      assert s[RunLength(s)..] == s[1..][RunLength(s[1..])..];
      assert s[..RunLength(s)] == [s[0]] + s[1..][..RunLength(s[1..])];
    } else {
      SubstituteAfterRun(s, was, now);
      assert s[0..] == s && s[..0] == [];
    }
  }

  lemma SubstituteRun(s: string, was: string, now: string)
    requires IsName(was) && StartsId(s)
    ensures var n := RunLength(s);
            Substitute(s, false, was, now) == One(was, now)(s[..n]) + Substitute(s[n..], false, was, now)
  {
    var n := RunLength(s);
    MatchIsRun(s, was);
    RunIsId(s);
    if s[..n] == was {
      SubstituteAfterRun(s[n..], was, now);
    } else {
      SubstituteOtherRun(s, was, now);
    }
  }

  lemma SubstituteOtherRun(s: string, was: string, now: string)
    requires IsName(was) && StartsId(s) && !MatchesHere(s, false, was)
    ensures Substitute(s, false, was, now) == s[..RunLength(s)] + Substitute(s[RunLength(s)..], false, was, now)
  {
    var n := RunLength(s);
    SubstituteInsideRun(s[1..], was, now);
    assert s[n..] == s[1..][n - 1..];
    var rest := Substitute(s[n..], false, was, now);
    assert Substitute(s, false, was, now) == [s[0]] + (s[1..][..n - 1] + rest);
    assert s[..n] == [s[0]] + s[1..][..n - 1];
  }

  /** Substitution renames exactly the words equal to the name, and leaves a run boundary a run boundary. */
  lemma {:induction false} SubstituteWords(s: string, was: string, now: string)
    requires IsName(was) && IsName(now)
    ensures Words(Substitute(s, false, was, now)) == MapWords(Words(s), One(was, now))
    ensures !StartsId(s) ==> !StartsId(Substitute(s, false, was, now))
    decreases |s|
  {
    if s != [] {
      if IsId(s[0]) {
        var n := RunLength(s);
        RunIsId(s);
        SubstituteWords(s[n..], was, now);
        SubstituteRun(s, was, now);
        WordThen(One(was, now)(s[..n]), Substitute(s[n..], false, was, now));
        assert Words(s)[1..] == Words(s[n..]);
      } else {
        SubstituteWords(s[1..], was, now);
        SubstituteAfterRun(s, was, now);
        MatchStartsId(s, was);
        MarkThen(s[0], Substitute(s[1..], false, was, now));
        assert Words(s)[1..] == Words(s[1..]);
      }
    }
  }

  lemma {:induction false} OccursInsideRun(s: string, name: string)
    requires IsName(name)
    ensures Occurs(s, true, name) <==> Occurs(s[RunLength(s)..], false, name)
  {
    if StartsId(s) {
      OccursInsideRun(s[1..], name);
      assert s[RunLength(s)..] == s[1..][RunLength(s[1..])..];
    } else {
      assert s[0..] == s;
      MatchStartsId(s, name);
    }
  }

  /** The search finds the name exactly when it is one of the words. */
  lemma {:induction false} OccursIsWord(s: string, name: string)
    requires IsName(name)
    ensures Occurs(s, false, name) <==> Word(name) in Words(s)
    decreases |s|
  {
    if s != [] {
      MatchIsRun(s, name);
      if IsId(s[0]) {
        var n := RunLength(s);
        OccursIsWord(s[n..], name);
        OccursInsideRun(s[1..], name);
        assert s[n..] == s[1..][n - 1..];
        if s[..n] == name { assert MatchesHere(s, false, name); }
      } else {
        OccursIsWord(s[1..], name);
      }
    }
  }

  // ---------------------------------------------------------------- the segmentation

  predicate NoQuotes(s: string) { forall i :: 0 <= i < |s| ==> !IsQuote(s[i]) }

  predicate AtBoundary(rest: string) { rest == [] || StartsQuote(rest) }

  lemma {:induction false} PlainIsPlain(s: string)
    ensures NoQuotes(s[..PlainLength(s)]) && AtBoundary(s[PlainLength(s)..])
  {
    if s != [] && !IsQuote(s[0]) {
      PlainIsPlain(s[1..]);
      assert s[PlainLength(s)..] == s[1..][PlainLength(s[1..])..];
      assert s[..PlainLength(s)] == [s[0]] + s[1..][..PlainLength(s[1..])];
    }
  }

  lemma {:induction false} PlainOf(p: string, rest: string)
    requires NoQuotes(p) && AtBoundary(rest)
    ensures PlainLength(p + rest) == |p|
  {
    if p == [] {
      assert p + rest == rest;
    } else {
      PlainOf(p[1..], rest);
      assert (p + rest)[1..] == p[1..] + rest;
    }
  }

  lemma PlainThen(p: string, rest: string)
    requires p != [] && NoQuotes(p) && AtBoundary(rest)
    ensures Segments(p + rest) == [Segment(true, p)] + Segments(rest)
  {
    PlainOf(p, rest);
    assert (p + rest)[0] == p[0];
    assert (p + rest)[..|p|] == p && (p + rest)[|p|..] == rest;
  }

  /** What follows a quoted segment does not start with its quote. */
  lemma {:induction false} QuotedEnds(s: string, q: char)
    ensures var rest := s[QuotedLength(s, q)..]; rest == [] || rest[0] != q
    decreases |s|
  {
    if s != [] {
      if |s| > 1 && (s[0] == ESCAPE || (s[0] == q && s[1] == q)) {
        QuotedEnds(s[2..], q);
        assert s[2..][QuotedLength(s[2..], q)..] == s[QuotedLength(s, q)..];
      } else if s[0] != q && s[0] != ESCAPE {
        QuotedEnds(s[1..], q);
        assert s[1..][QuotedLength(s[1..], q)..] == s[QuotedLength(s, q)..];
      }
    }
  }

  lemma TailOf(s: string, n: nat, rest: string, k: nat)
    requires k <= n <= |s|
    ensures (s[..n] + rest)[k..] == s[k..][..n - k] + rest
    ensures s[k..][n - k..] == s[n..]
  {
  }

  /** How many characters of a quoted segment are read at once, short of its end. */
  function Stride(s: string, q: char): nat {
    if |s| > 1 && (s[0] == ESCAPE || (s[0] == q && s[1] == q)) then 2
    else if s != [] && s[0] != q && s[0] != ESCAPE then 1
    else 0
  }

  lemma StrideReads(s: string, q: char)
    requires Stride(s, q) > 0
    ensures QuotedLength(s, q) == Stride(s, q) + QuotedLength(s[Stride(s, q)..], q)
  {
  }

  lemma StrideStays(s: string, q: char, t: string)
    requires Stride(s, q) > 0 && |t| >= Stride(s, q) && t[..Stride(s, q)] == s[..Stride(s, q)]
    ensures Stride(t, q) == Stride(s, q)
  {
    assert t[0] == t[..Stride(s, q)][0] == s[0];
    if Stride(s, q) == 2 { assert t[1] == t[..2][1] == s[1]; }
  }

  /** The quoted segment stays the same when its closed text is followed by something else. */
  lemma {:induction false} QuotedStays(s: string, q: char, rest: string)
    requires rest == [] || (s[QuotedLength(s, q)..] != [] && rest[0] != q)
    ensures QuotedLength(s[..QuotedLength(s, q)] + rest, q) == QuotedLength(s, q)
    decreases |s|
  {
    var n, k := QuotedLength(s, q), Stride(s, q);
    if k > 0 {
      StrideReads(s, q);
      TailOf(s, n, rest, k);
      QuotedStays(s[k..], q, rest);
      var t := s[..n] + rest;
      assert t[..k] == s[..k];
      StrideStays(s, q, t);
      StrideReads(t, q);
    } else {
      QuotedStops(s, q, rest);
    }
  }

  lemma QuotedStops(s: string, q: char, rest: string)
    requires Stride(s, q) == 0 && (rest == [] || (s[QuotedLength(s, q)..] != [] && rest[0] != q))
    ensures QuotedLength(s[..QuotedLength(s, q)] + rest, q) == QuotedLength(s, q)
  {
    var n := QuotedLength(s, q);
    var t := s[..n] + rest;
    if s != [] {
      assert n == 1 && t[0] == s[0] && t[1..] == rest;
    } else {
      assert t == [];
    }
  }

  /** Whether text of this kind may follow a quoted segment as before: same emptiness, same opening quote. */
  predicate SameStart(s: string, t: string) {
    (s == [] <==> t == []) && (StartsQuote(s) <==> StartsQuote(t)) && (StartsQuote(s) ==> s[0] == t[0])
  }

  lemma QuotedThen(s: string, rest: string)
    requires StartsQuote(s) && SameStart(s[SegmentLength(s)..], rest)
    ensures Segments(s[..SegmentLength(s)] + rest) == [Segment(false, s[..SegmentLength(s)])] + Segments(rest)
  {
    var n := SegmentLength(s);
    var t := s[..n] + rest;
    assert s[1..][n - 1..] == s[n..];
    QuotedEnds(s[1..], s[0]);
    QuotedStays(s[1..], s[0], rest);
    assert t[1..] == s[1..][..n - 1] + rest;
    assert t[..n] == s[..n] && t[n..] == rest;
  }

  lemma {:induction false} SubstitutePlain(s: string, afterId: bool, was: string, now: string)
    requires IsName(was) && IsName(now) && NoQuotes(s)
    ensures NoQuotes(Substitute(s, afterId, was, now)) && (s == [] <==> Substitute(s, afterId, was, now) == [])
    decreases |s|
  {
    if s != [] {
      if MatchesHere(s, afterId, was) {
        SubstitutePlain(s[|was|..], IsId(was[|was| - 1]), was, now);
      } else {
        SubstitutePlain(s[1..], IsId(s[0]), was, now);
      }
    }
  }

  /** Renaming keeps the segmentation: the segments of the result are the renamed segments, and quoted
      segments are unchanged. */
  lemma {:induction false} RenamingKeepsSegments(f: string, was: string, now: string)
    requires IsName(was) && IsName(now)
    ensures Segments(ReplaceIdentifier(f, was, now)) == RenameSegments(Segments(f), was, now)
    ensures SameStart(f, ReplaceIdentifier(f, was, now))
    decreases |f|
  {
    if f != [] {
      var n := SegmentLength(f);
      var rest, g := f[n..], Segment(!IsQuote(f[0]), f[..n]);
      RenamingKeepsSegments(rest, was, now);
      ReplaceFirst(f, was, now);
      if g.unquoted {
        PlainIsPlain(f);
        SubstitutePlain(g.text, false, was, now);
        PlainThen(RenameSegment(g, was, now).text, ReplaceIdentifier(rest, was, now));
      } else {
        QuotedThen(f, ReplaceIdentifier(rest, was, now));
      }
    }
  }

  lemma ReplaceFirst(f: string, was: string, now: string)
    requires IsName(was) && f != []
    ensures var g := Segment(!IsQuote(f[0]), f[..SegmentLength(f)]);
            var rest := f[SegmentLength(f)..];
            && ReplaceIdentifier(f, was, now) == RenameSegment(g, was, now).text + ReplaceIdentifier(rest, was, now)
            && RenameSegments(Segments(f), was, now) ==
               [RenameSegment(g, was, now)] + RenameSegments(Segments(rest), was, now)
  {
    assert Segments(f)[1..] == Segments(f[SegmentLength(f)..]);
    var rs := RenameSegments(Segments(f), was, now);
    assert rs[1..] == RenameSegments(Segments(f)[1..], was, now);
  }

  // ---------------------------------------------------------------- renaming, on tokens

  lemma {:induction false} RenamedTokens(gs: seq<Segment>, was: string, now: string)
    requires IsName(was) && IsName(now)
    ensures AllTokens(RenameSegments(gs, was, now)) == MapWords(AllTokens(gs), One(was, now))
  {
    if gs != [] {
      RenamedTokens(gs[1..], was, now);
      MapWordsConcat(SegmentTokens(gs[0]), AllTokens(gs[1..]), One(was, now));
      if gs[0].unquoted {
        SubstituteWords(gs[0].text, was, now);
      } else {
        assert MapWords([Quoted(gs[0].text)][1..], One(was, now)) == [];
      }
      assert RenameSegments(gs, was, now)[1..] == RenameSegments(gs[1..], was, now);
    }
  }

  /** The textual renaming is the renaming of tokens: exactly the unquoted words equal to `was` change. */
  lemma RenamingIsTokenwise(f: string, was: string, now: string)
    requires IsName(was) && IsName(now)
    ensures Tokens(ReplaceIdentifier(f, was, now)) == MapWords(Tokens(f), One(was, now))
  {
    RenamingKeepsSegments(f, was, now);
    RenamedTokens(Segments(f), was, now);
  }

  lemma {:induction false} AnyMention(gs: seq<Segment>, concept: string)
    requires IsName(concept)
    ensures (exists k :: 0 <= k < |gs| && gs[k].unquoted && Occurs(gs[k].text, false, concept)) <==>
            Word(concept) in AllTokens(gs)
  {
    if gs != [] {
      AnyMention(gs[1..], concept);
      OccursIsWord(gs[0].text, concept);
      if k :| 0 <= k < |gs| && gs[k].unquoted && Occurs(gs[k].text, false, concept) {
        if k > 0 { assert gs[1..][k - 1] == gs[k]; }
      }
      if k :| 0 <= k < |gs[1..]| && gs[1..][k].unquoted && Occurs(gs[1..][k].text, false, concept) {
        assert gs[k + 1] == gs[1..][k];
      }
    }
  }

  /** A formula mentions a concept exactly when the concept is one of its words. */
  lemma MentionIsWord(f: string, concept: string)
    requires IsName(concept)
    ensures FormulaMentions(f, concept) <==> Word(concept) in Tokens(f)
  {
    AnyMention(Segments(f), concept);
  }

  /** Renaming leaves no mention of the old name. */
  lemma RenamingIsComplete(f: string, was: string, now: string)
    requires IsName(was) && IsName(now) && was != now
    ensures !FormulaMentions(ReplaceIdentifier(f, was, now), was)
  {
    RenamingIsTokenwise(f, was, now);
    MentionIsWord(ReplaceIdentifier(f, was, now), was);
    MapWordsAt(Tokens(f), One(was, now));
  }

  /** The reverse renaming undoes a renaming exactly when the new name was not mentioned before. */
  lemma RenamingIsUndone(f: string, was: string, now: string)
    requires IsName(was) && IsName(now) && was != now
    ensures ReplaceIdentifier(ReplaceIdentifier(f, was, now), now, was) == f <==> !FormulaMentions(f, now)
  {
    var g := ReplaceIdentifier(f, was, now);
    var h := ReplaceIdentifier(g, now, was);
    RenamingIsTokenwise(f, was, now);
    RenamingIsTokenwise(g, now, was);
    MapWordsAt(Tokens(f), One(was, now));
    MapWordsAt(Tokens(g), One(now, was));
    MentionIsWord(f, now);
    if Word(now) in Tokens(f) {
      RenamingIsComplete(g, now, was);
    } else {
      assert Tokens(h) == Tokens(f);
    }
    TokensSpell(f);
    TokensSpell(h);
  }

  // ---------------------------------------------------------------- several renamings

  /** The renamings of `m`, one after the other in the order of `names`, as the formula loop applies them. */
  function ReplaceAll(f: string, m: map<string, string>, names: seq<string>): string
    requires forall i :: 0 <= i < |names| ==> names[i] in m && names[i] != []
    decreases |names|
  {
    if names == [] then f
    else ReplaceAll(ReplaceIdentifier(f, names[0], m[names[0]]), m, names[1..])
  }

  /** Concept names renamed to concept names that are not renamed themselves, no two to the same one. */
  predicate Sound(m: map<string, string>) {
    && (forall k :: k in m ==> IsName(k) && IsName(m[k]) && m[k] !in m)
    && (forall j, k :: j in m && k in m && m[j] == m[k] ==> j == k)
  }

  /** `names` is some iteration over the keys of `m`. */
  predicate Lists(names: seq<string>, m: map<string, string>) {
    (forall i :: 0 <= i < |names| ==> names[i] in m) && (forall k :: k in m ==> k in names)
  }

  function AtOnce(m: map<string, string>): string -> string { (w: string) => if w in m then m[w] else w }

  /** All renamings of `m` for the names in `some` at once. */
  ghost function Partly(m: map<string, string>, some: set<string>): string -> string {
    (w: string) => if w in m && w in some then m[w] else w
  }

  lemma OneMore(m: map<string, string>, name: string, names: seq<string>, ts: seq<Token>)
    requires Sound(m) && name in m
    ensures MapWords(MapWords(ts, One(name, m[name])), Partly(m, set k | k in names)) ==
            MapWords(ts, Partly(m, set k | k in [name] + names))
  {
    var some, more := set k | k in names, set k | k in [name] + names;
    var mid := MapWords(ts, One(name, m[name]));
    MapWordsAt(ts, One(name, m[name]));
    MapWordsAt(mid, Partly(m, some));
    MapWordsAt(ts, Partly(m, more));
    forall k | 0 <= k < |ts|
      ensures MapWord(MapWord(ts[k], One(name, m[name])), Partly(m, some)) == MapWord(ts[k], Partly(m, more))
    {
    }
  }

  lemma {:induction false} MapWordsSame(ts: seq<Token>, f: string -> string, g: string -> string)
    requires forall w :: f(w) == g(w)
    ensures MapWords(ts, f) == MapWords(ts, g)
  {
    if ts != [] { MapWordsSame(ts[1..], f, g); }
  }

  lemma {:induction false} ReplaceSome(f: string, m: map<string, string>, names: seq<string>)
    requires Sound(m) && forall i :: 0 <= i < |names| ==> names[i] in m
    ensures Tokens(ReplaceAll(f, m, names)) == MapWords(Tokens(f), Partly(m, set k | k in names))
    decreases |names|
  {
    if names == [] {
      MapWordsAt(Tokens(f), Partly(m, set k | k in names));
    } else {
      var g := ReplaceIdentifier(f, names[0], m[names[0]]);
      ReplaceSome(g, m, names[1..]);
      RenamingIsTokenwise(f, names[0], m[names[0]]);
      OneMore(m, names[0], names[1..], Tokens(f));
      assert [names[0]] + names[1..] == names;
    }
  }

  /** In whatever order the renamings run, the result is the one simultaneous substitution. */
  lemma ReplaceAllIsSimultaneous(f: string, m: map<string, string>, names: seq<string>)
    requires Sound(m) && Lists(names, m)
    ensures Tokens(ReplaceAll(f, m, names)) == MapWords(Tokens(f), AtOnce(m))
  {
    ReplaceSome(f, m, names);
    MapWordsSame(Tokens(f), Partly(m, set k | k in names), AtOnce(m));
  }

  lemma ReplaceAllIgnoresOrder(f: string, m: map<string, string>, names: seq<string>, others: seq<string>)
    requires Sound(m) && Lists(names, m) && Lists(others, m)
    ensures ReplaceAll(f, m, names) == ReplaceAll(f, m, others)
  {
    ReplaceAllIsSimultaneous(f, m, names);
    ReplaceAllIsSimultaneous(f, m, others);
    TokensSpell(ReplaceAll(f, m, names));
    TokensSpell(ReplaceAll(f, m, others));
  }

  // ---------------------------------------------------------------- meaning

  /** What a token means where names have the values of `env`: any evaluation of the formula sees no more. */
  datatype Sense<V> = Denotes(value: V) | Verbatim(text: string)

  function SenseOf<V>(t: Token, env: string -> V): Sense<V> {
    match t
    case Word(name) => Denotes(env(name))
    case _ => Verbatim(TokenText(t))
  }

  function Meaning<V>(f: string, env: string -> V): seq<Sense<V>> {
    seq(|Tokens(f)|, k requires 0 <= k < |Tokens(f)| => SenseOf(Tokens(f)[k], env))
  }

  /** For the names the formula uses, `after` gives each new name the value its old name had and changes
      no other name. */
  ghost predicate Carries<V(!new)>(f: string, m: map<string, string>, before: string -> V, after: string -> V) {
    && (forall k :: k in m && FormulaMentions(f, k) ==> after(m[k]) == before(k))
    && (forall w :: w !in m && w !in m.Values ==> after(w) == before(w))
  }

  predicate MentionsNew(f: string, m: map<string, string>) { exists k :: k in m && FormulaMentions(f, m[k]) }

  /** The rewritten formula means what the original meant, unless the original already used a new name. */
  lemma ReplacingKeepsMeaning<V(!new)>(f: string, m: map<string, string>, names: seq<string>,
                                       before: string -> V, after: string -> V)
    requires Sound(m) && Lists(names, m)
    requires !MentionsNew(f, m) && Carries(f, m, before, after)
    ensures Meaning(ReplaceAll(f, m, names), after) == Meaning(f, before)
  {
    ReplaceAllIsSimultaneous(f, m, names);
    MapWordsAt(Tokens(f), AtOnce(m));
    forall k | 0 <= k < |Tokens(f)|
      ensures SenseOf(MapWord(Tokens(f)[k], AtOnce(m)), after) == SenseOf(Tokens(f)[k], before)
    {
      if Tokens(f)[k].Word? {
        var w := Tokens(f)[k].name;
        if w in m {
          MentionIsWord(f, w);
        } else if w in m.Values {
          var was :| was in m && m[was] == w;
          MentionIsWord(f, m[was]);
        }
      }
    }
  }

  function Only(name: string): string -> bool { (w: string) => w == name }

  function Nothing(): string -> bool { (w: string) => false }

  lemma Differs(f: string, m: map<string, string>, g: string, k: string)
    requires Sound(m) && k in m && FormulaMentions(f, m[k]) && Tokens(g) == MapWords(Tokens(f), AtOnce(m))
    ensures Meaning(g, Nothing()) != Meaning(f, Only(m[k]))
  {
    MentionIsWord(f, m[k]);
    var i :| 0 <= i < |Tokens(f)| && Tokens(f)[i] == Word(m[k]);
    MapWordsAt(Tokens(f), AtOnce(m));
    assert Meaning(f, Only(m[k]))[i] == Denotes(true);
    assert Meaning(g, Nothing())[i] == Denotes(false);
  }

  /** A formula that already used a new name has values under which the rewriting changes its meaning. */
  lemma NewNameIsCaptured(f: string, m: map<string, string>, names: seq<string>)
    requires Sound(m) && Lists(names, m) && MentionsNew(f, m)
    ensures exists before: string -> bool, after: string -> bool ::
              Carries(f, m, before, after) && Meaning(ReplaceAll(f, m, names), after) != Meaning(f, before)
  {
    var k :| k in m && FormulaMentions(f, m[k]);
    ReplaceAllIsSimultaneous(f, m, names);
    Differs(f, m, ReplaceAll(f, m, names), k);
    assert Carries(f, m, Only(m[k]), Nothing());
  }
}

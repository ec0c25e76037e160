/**
 Quote-aware renaming of identifiers in formula text.  The text is split into unquoted and quoted
 segments without being parsed; the renaming pattern runs over the unquoted ones only.  The reference
 reading of a formula is its token sequence: words, single marks and quoted segments.
 */
module ConceptFormula {
  import opened Common

  predicate IsId(c: char) { 'A' <= c <= 'Z' || 'a' <= c <= 'z' || '0' <= c <= '9' || c == '_' }

  predicate AllId(s: string) { forall i :: 0 <= i < |s| ==> IsId(s[i]) }

  predicate IsName(s: string) { s != [] && AllId(s) }

  predicate IsQuote(c: char) { c == DOUBLE_QUOTE || c == SINGLE_QUOTE }

  predicate StartsQuote(s: string) { s != [] && IsQuote(s[0]) }

  predicate StartsId(s: string) { s != [] && IsId(s[0]) }

  // ---------------------------------------------------------------- segments

  datatype Segment = Segment(unquoted: bool, text: string)

  /** How much of `s`, the text after an opening quote `q`, belongs to the quoted segment. */
  function QuotedLength(s: string, q: char): (n: nat)
    ensures n <= |s|
  {
    if s == [] then 0
    else if s[0] == ESCAPE then (if |s| == 1 then 1 else 2 + QuotedLength(s[2..], q))
    else if s[0] == q then (if |s| > 1 && s[1] == q then 2 + QuotedLength(s[2..], q) else 1)
    else 1 + QuotedLength(s[1..], q)
  }

  function PlainLength(s: string): (n: nat)
    ensures n <= |s|
  {
    if s == [] || IsQuote(s[0]) then 0 else 1 + PlainLength(s[1..])
  }

  /** The length of the first segment. */
  function SegmentLength(s: string): (n: nat)
    requires s != []
    ensures 0 < n <= |s|
  {
    if IsQuote(s[0]) then 1 + QuotedLength(s[1..], s[0]) else PlainLength(s)
  }

  function Segments(s: string): seq<Segment> {
    if s == [] then []
    else [Segment(!IsQuote(s[0]), s[..SegmentLength(s)])] + Segments(s[SegmentLength(s)..])
  }

  // ---------------------------------------------------------------- the segmentation loop

  /** The segments that the text from `start` on will add, when the scan is at `index` inside `quote` or,
      with no quote open, in plain text. */
  ghost function Pending(f: string, start: nat, index: nat, quote: Option<char>): seq<Segment>
    requires start <= index <= |f|
  {
    var n := index + (if quote.None? then PlainLength(f[index..]) else QuotedLength(f[index..], quote.value));
    (if start < n then [Segment(quote.None?, f[start..n])] else []) + Segments(f[n..])
  }

  lemma PendingAtStart(f: string)
    ensures Pending(f, 0, 0, None) == Segments(f)
  {
    assert f[0..] == f;
    if f != [] && !IsQuote(f[0]) { assert PlainLength(f) == SegmentLength(f); }
  }

  lemma SliceLater(f: string, i: nat, k: nat)
    requires i + k <= |f|
    ensures f[i..][k..] == f[i + k..]
  {
  }

  lemma PlainGoesOn(f: string, start: nat, index: nat)
    requires start <= index < |f| && !IsQuote(f[index])
    ensures Pending(f, start, index, None) == Pending(f, start, index + 1, None)
  {
    SliceLater(f, index, 1);
  }

  lemma QuotedPending(f: string, index: nat)
    requires index < |f| && IsQuote(f[index])
    ensures Pending(f, index, index + 1, Some(f[index])) == Segments(f[index..])
  {
    var s := f[index..];
    var n := SegmentLength(s);
    SliceLater(f, index, 1);
    SliceLater(f, index, n);
    assert s[..n] == f[index..index + n];
  }

  lemma QuoteOpens(f: string, start: nat, index: nat)
    requires start <= index < |f| && IsQuote(f[index])
    ensures start == index ==> Pending(f, start, index, None) == Pending(f, index, index + 1, Some(f[index]))
    ensures start < index ==>
              Pending(f, start, index, None) ==
              [Segment(true, f[start..index])] + Pending(f, index, index + 1, Some(f[index]))
  {
    QuotedPending(f, index);
    assert PlainLength(f[index..]) == 0;
  }

  lemma PendingAtEnd(f: string, start: nat, quote: Option<char>)
    requires start <= |f|
    ensures Pending(f, start, |f|, quote) == if start < |f| then [Segment(quote.None?, f[start..])] else []
  {
    assert f[|f|..] == [];
    assert f[start..|f|] == f[start..];
  }

  lemma QuoteGoesOn(f: string, start: nat, index: nat, q: char)
    requires start <= index < |f|
    requires !(f[index] == q && f[index] != ESCAPE && !(index + 1 < |f| && f[index + 1] == q))
    ensures var k := if f[index] == ESCAPE then (if index + 2 <= |f| then 2 else 1) else if f[index] == q then 2 else 1;
            index + k <= |f| && Pending(f, start, index, Some(q)) == Pending(f, start, index + k, Some(q))
  {
    SliceLater(f, index, 1);
    if index + 2 <= |f| { SliceLater(f, index, 2); }
  }

  lemma QuoteCloses(f: string, start: nat, index: nat, q: char)
    requires start <= index < |f| && f[index] == q && q != ESCAPE
    requires !(index + 1 < |f| && f[index + 1] == q)
    ensures Pending(f, start, index, Some(q)) ==
            [Segment(false, f[start..index + 1])] + Pending(f, index + 1, index + 1, None)
  {
    SliceLater(f, index, 1);
    var s := f[index + 1..];
    if s != [] && !IsQuote(s[0]) {
      var n := PlainLength(s);
      SliceLater(f, index + 1, n);
      assert s[..n] == f[index + 1..index + 1 + n];
    }
  }

  lemma Appended(done: seq<Segment>, g: Segment, rest: seq<Segment>)
    ensures done + ([g] + rest) == (done + [g]) + rest
  {
  }

  /** One pass over the characters: `start` is where the current segment began, `quote` the open quote. */
  method FormulaSegments(formula: string) returns (segments: seq<Segment>)
    ensures segments == Segments(formula)
  {
    segments := [];
    var start: nat, index: nat, quote := 0, 0, None;
    PendingAtStart(formula);
    while index < |formula|
      invariant start <= index <= |formula|
      invariant quote.Some? ==> IsQuote(quote.value)
      invariant Segments(formula) == segments + Pending(formula, start, index, quote)
    {
      segments, start, index, quote := ScanCharacter(formula, segments, start, index, quote);
    }
    PendingAtEnd(formula, start, quote);
    if start < |formula| {
      segments := segments + [Segment(quote.None?, formula[start..])];
    }
  }

  method ScanCharacter(formula: string, segmentsIn: seq<Segment>, startIn: nat, indexIn: nat, quoteIn: Option<char>)
    returns (segments: seq<Segment>, start: nat, index: nat, quote: Option<char>)
    requires startIn <= indexIn < |formula| && (quoteIn.Some? ==> IsQuote(quoteIn.value))
    ensures start <= index <= |formula| && indexIn < index && (quote.Some? ==> IsQuote(quote.value))
    ensures segments + Pending(formula, start, index, quote) == segmentsIn + Pending(formula, startIn, indexIn, quoteIn)
  {
    segments, start, index, quote := segmentsIn, startIn, indexIn, quoteIn;
    var character := formula[index];
    if quote.None? {
      if IsQuote(character) {
        QuoteOpens(formula, start, index);
        if start < index {
          Appended(segments, Segment(true, formula[start..index]), Pending(formula, index, index + 1, Some(character)));
          segments := segments + [Segment(true, formula[start..index])];
        }
        return segments, index, index + 1, Some(character);
      }
      PlainGoesOn(formula, start, index);
      return segments, start, index + 1, None;
    }
    var closed, next := ScanQuoted(formula, start, index, quote.value);
    if closed {
      Appended(segments, Segment(false, formula[start..next]), Pending(formula, next, next, None));
      return segments + [Segment(false, formula[start..next])], next, next, None;
    }
    return segments, start, next, quote;
  }

  /** One character inside a quoted segment: the index to go on from, and whether the segment is closed there. */
  method ScanQuoted(formula: string, start: nat, index: nat, quote: char) returns (closed: bool, next: nat)
    requires start <= index < |formula| && IsQuote(quote)
    ensures index < next <= |formula|
    ensures !closed ==> Pending(formula, start, next, Some(quote)) == Pending(formula, start, index, Some(quote))
    ensures closed ==>
              Pending(formula, start, index, Some(quote)) ==
              [Segment(false, formula[start..next])] + Pending(formula, next, next, None)
  {
    var character := formula[index];
    if character == ESCAPE {
      QuoteGoesOn(formula, start, index, quote);
      return false, if index + 2 <= |formula| then index + 2 else |formula|;
    }
    if character == quote {
      if index + 1 < |formula| && formula[index + 1] == quote {
        QuoteGoesOn(formula, start, index, quote);
        return false, index + 2;
      }
      QuoteCloses(formula, start, index, quote);
      return true, index + 1;
    }
    QuoteGoesOn(formula, start, index, quote);
    return false, index + 1;
  }

  // ---------------------------------------------------------------- the pattern

  /** The identifier pattern matches at the front of `s`. */
  predicate MatchesHere(s: string, afterId: bool, name: string) {
    !afterId && name <= s && !StartsId(s[|name|..])
  }

  function Substitute(s: string, afterId: bool, was: string, now: string): string
    requires was != []
  {
    if s == [] then []
    else if MatchesHere(s, afterId, was) then now + Substitute(s[|was|..], IsId(was[|was| - 1]), was, now)
    else [s[0]] + Substitute(s[1..], IsId(s[0]), was, now)
  }

  predicate Occurs(s: string, afterId: bool, name: string) {
    MatchesHere(s, afterId, name) || (s != [] && Occurs(s[1..], IsId(s[0]), name))
  }

  function RenameSegment(g: Segment, was: string, now: string): Segment
    requires was != []
  {
    if g.unquoted then Segment(true, Substitute(g.text, false, was, now)) else g
  }

  function RenameSegments(gs: seq<Segment>, was: string, now: string): seq<Segment>
    requires was != []
  {
    if gs == [] then [] else [RenameSegment(gs[0], was, now)] + RenameSegments(gs[1..], was, now)
  }

  function Joined(gs: seq<Segment>): string { if gs == [] then [] else gs[0].text + Joined(gs[1..]) }

  function ReplaceIdentifier(f: string, was: string, now: string): string
    requires was != []
  {
    Joined(RenameSegments(Segments(f), was, now))
  }

  predicate FormulaMentions(f: string, concept: string) {
    exists k :: 0 <= k < |Segments(f)| && Segments(f)[k].unquoted && Occurs(Segments(f)[k].text, false, concept)
  }

  // ---------------------------------------------------------------- tokens

  datatype Token = Word(name: string) | Mark(c: char) | Quoted(text: string)

  function RunLength(s: string): (n: nat)
    ensures n <= |s|
  {
    if StartsId(s) then 1 + RunLength(s[1..]) else 0
  }

  function Words(s: string): seq<Token> {
    if s == [] then []
    else if IsId(s[0]) then [Word(s[..RunLength(s)])] + Words(s[RunLength(s)..])
    else [Mark(s[0])] + Words(s[1..])
  }

  function SegmentTokens(g: Segment): seq<Token> { if g.unquoted then Words(g.text) else [Quoted(g.text)] }

  function AllTokens(gs: seq<Segment>): seq<Token> {
    if gs == [] then [] else SegmentTokens(gs[0]) + AllTokens(gs[1..])
  }

  function Tokens(f: string): seq<Token> { AllTokens(Segments(f)) }

  function TokenText(t: Token): string {
    match t
    case Word(name) => name
    case Mark(c) => [c]
    case Quoted(text) => text
  }

  function Spelled(ts: seq<Token>): string { if ts == [] then [] else TokenText(ts[0]) + Spelled(ts[1..]) }

  /** A renaming of words, applied to every token. */
  function MapWords(ts: seq<Token>, rename: string -> string): seq<Token> {
    if ts == [] then [] else [MapWord(ts[0], rename)] + MapWords(ts[1..], rename)
  }

  function MapWord(t: Token, rename: string -> string): Token { if t.Word? then Word(rename(t.name)) else t }

  function One(was: string, now: string): string -> string { (w: string) => if w == was then now else w }

  lemma {:induction false} MapWordsAt(ts: seq<Token>, rename: string -> string)
    ensures |MapWords(ts, rename)| == |ts|
    ensures forall k :: 0 <= k < |ts| ==> MapWords(ts, rename)[k] == MapWord(ts[k], rename)
  {
    if ts != [] { MapWordsAt(ts[1..], rename); }
  }

  lemma MapWordsConcat(a: seq<Token>, b: seq<Token>, rename: string -> string)
    ensures MapWords(a + b, rename) == MapWords(a, rename) + MapWords(b, rename)
  {
    MapWordsAt(a, rename);
    MapWordsAt(b, rename);
    MapWordsAt(a + b, rename);
  }

  lemma Associative(x: string, y: string, z: string)
    ensures x + (y + z) == x + y + z
  {
  }

  lemma {:induction false} SpelledConcat(a: seq<Token>, b: seq<Token>)
    ensures Spelled(a + b) == Spelled(a) + Spelled(b)
  {
    if a == [] {
      assert a + b == b;
    } else {
      SpelledConcat(a[1..], b);
      assert (a + b)[0] == a[0] && (a + b)[1..] == a[1..] + b;
      Associative(TokenText(a[0]), Spelled(a[1..]), Spelled(b));
    }
  }

  lemma {:induction false} WordsSpell(s: string)
    ensures Spelled(Words(s)) == s
  {
    if s != [] {
      var n := if IsId(s[0]) then RunLength(s) else 1;
      WordsSpell(s[n..]);
      assert s == s[..n] + s[n..];
      assert Words(s)[1..] == Words(s[n..]);
      assert TokenText(Words(s)[0]) == s[..n];
    }
  }

  lemma {:induction false} AllTokensSpell(gs: seq<Segment>)
    ensures Spelled(AllTokens(gs)) == Joined(gs)
  {
    if gs != [] {
      AllTokensSpell(gs[1..]);
      SpelledConcat(SegmentTokens(gs[0]), AllTokens(gs[1..]));
      if gs[0].unquoted {
        WordsSpell(gs[0].text);
      } else {
        assert Spelled([Quoted(gs[0].text)][1..]) == [];
      }
    }
  }

  lemma {:induction false} SegmentsJoin(s: string)
    ensures Joined(Segments(s)) == s
  {
    if s != [] {
      SegmentsJoin(s[SegmentLength(s)..]);
      assert Segments(s)[1..] == Segments(s[SegmentLength(s)..]);
    }
  }

  /** Tokens spell the formula they come from. */
  lemma TokensSpell(f: string)
    ensures Spelled(Tokens(f)) == f
  {
    AllTokensSpell(Segments(f));
    SegmentsJoin(f);
  }
}
